/**
 The buffered gzip reader of gzread.c and gzlib.c: whatever the sizes of the requests and the path a
 byte takes, it is a cursor over one fixed sequence.
 */
module GzReader {
  import opened Basics

  datatype How = Look | Copy | Gzip

  function Drop(s: seq<byte>, n: nat): seq<byte> {
    s[Min(n, |s|)..]
  }

  /**
   A file and what inflate makes of it: the gzip member that starts at `at` ends before `end(at)` and
   holds `content(at)`.
   */
  datatype File = File(bytes: seq<byte>, end: nat -> nat, content: nat -> seq<byte>)

  /** The magic bytes of a gzip member. */
  predicate Magic(file: File, at: nat) {
    at + 2 <= |file.bytes| && file.bytes[at] == 31 && file.bytes[at + 1] == 139
  }

  /** From here on every member that is looked at is complete. */
  predicate Sound(file: File, at: nat)
    decreases |file.bytes| - at
  {
    Magic(file, at) ==> at + 2 <= file.end(at) <= |file.bytes| && Sound(file, file.end(at))
  }

  /** What is read from `at` on: members, then nothing; or the bytes themselves if no member came first. */
  function Stream(file: File, at: nat, direct: bool): seq<byte>
    requires Sound(file, at)
    decreases |file.bytes| - at
  {
    if Magic(file, at) then file.content(at) + Stream(file, file.end(at), false)
    else if direct then Drop(file.bytes, at)
    else []
  }

  /** The sequence under the cursor. */
  function Data(file: File): seq<byte>
    requires Sound(file, 0)
  {
    Stream(file, 0, true)
  }

  /**
   One call of inflate, `i` bytes of the file and `p` bytes of the member's content done: it takes `c`
   bytes and makes `q`, does something, and takes the last byte of a member only after all content.
   */
  predicate Inflates(file: File, member: nat, i: nat, p: nat, availIn: nat, availOut: nat, c: nat, q: nat) {
    && c <= availIn && q <= availOut && c + q > 0
    && i + c <= file.end(member) && p + q <= |file.content(member)|
    && (i + c == file.end(member) ==> p + q == |file.content(member)|)
  }

  lemma InflateCan(file: File, member: nat, i: nat, p: nat, availIn: nat, availOut: nat) returns (c: nat, q: nat)
    requires availIn > 0 && availOut > 0 && i < file.end(member) && p <= |file.content(member)|
    ensures Inflates(file, member, i, p, availIn, availOut, c, q)
  {
    if p < |file.content(member)| {
      c, q := 0, 1;
    } else {
      c, q := Min(availIn, file.end(member) - i), 0;
    }
  }

  // ----- the cursor that a reader stands for

  /**
   The bytes in front, the position, the part of them that a pending seek passes over, whether reading
   has ended in an error, and how many more bytes the output buffer could hold.
   */
  datatype Cursor = Cursor(view: seq<byte>, pos: int, pending: nat, dead: bool, room: nat)

  function Ahead(c: Cursor): seq<byte> {
    Drop(c.view, c.pending)
  }

  function TellOf(c: Cursor): int {
    c.pos + c.pending
  }

  /** Where a pending seek will lead: not past the end. */
  function Settled(c: Cursor): int {
    c.pos + Min(c.pending, |c.view|)
  }

  datatype Op =
    | OpRead(len: nat)
    | OpGetc
    | OpUngetc(c: int)
    | OpSeek(offset: int, fromStart: bool)
    | OpRewind
    | OpTell

  datatype Reply = Bytes(data: seq<byte>) | Number(n: int)

  /** The cursor after `k` of the bytes ahead. */
  function Moved(c: Cursor, k: nat, room: nat): Cursor
    requires k <= |Ahead(c)|
  {
    Cursor(Ahead(c)[k..], Settled(c) + k, 0, false, room)
  }

  /** What a call replies, and the cursor after it. */
  ghost predicate Performs(file: File, size: nat, c: Cursor, op: Op, r: Reply, d: Cursor) {
    if op.OpTell? then r == Number(TellOf(c)) && d == c
    else if c.dead then r == Number(-1) && d == c
    else match op
      case OpRead(len) =>
        var k := Min(len, |Ahead(c)|);
        if len >= 0x8000_0000 then r == Number(-1) && d == Cursor([], c.pos, c.pending, true, 2 * size)
        else r == Bytes(Ahead(c)[..k]) && if len == 0 then d == c else d == Moved(c, k, d.room) && d.room > 0
      case OpGetc =>
        && d.room > 0
        && if Ahead(c) == [] then r == Number(-1) && d == Moved(c, 0, d.room)
           else r == Number(Ahead(c)[0]) && d == Moved(c, 1, d.room)
      case OpUngetc(x) =>
        if x < 0 then r == Number(-1) && d == Moved(c, 0, d.room) && (d.room == 0 <==> c.room == 0)
        else if c.room == 0 then r == Number(-1) && |Ahead(c)| >= 2 * size &&
            d == Cursor([], Settled(c), 0, true, 2 * size)
        else
          && r == Number(x) && d == Cursor([x % 256] + Ahead(c), Settled(c) - 1, 0, false, d.room)
          && (c.pending == 0 ==> RoomAfterPush(size, c.room, d.room))
      case OpSeek(offset, fromStart) => Seeks(file, c, if fromStart then offset else TellOf(c) + offset, r, d)
      case OpRewind => Sound(file, 0) && r == Number(0) && d == Cursor(Data(file), 0, 0, false, 2 * size)
  }

  /** A byte that is pushed takes the room of one; before it, an input buffer may go to an empty output buffer. */
  predicate RoomAfterPush(size: nat, before: int, after: int) {
    if before < 2 * size then after == before - 1 else size - 1 <= after < before
  }

  /**
   A seek to `target`: back, and anywhere in a plain file, to the data; forward, on from what is in
   front.  How much of it is passed over at once is open.
   */
  ghost predicate Seeks(file: File, c: Cursor, target: int, r: Reply, d: Cursor) {
    if target < 0 && target < c.pos then r == Number(-1) && d == c.(pending := 0)
    else
      && r == Number(target) && !d.dead && TellOf(d) == target && (d.room == 0 ==> c.room == 0 && target == c.pos)
      && if target < c.pos || (!Magic(file, 0) && target >= 0) then
           Sound(file, 0) && d.pos >= 0 && d.view == Drop(Data(file), d.pos)
         else c.pos <= d.pos <= c.pos + |c.view| && d.view == c.view[d.pos - c.pos..]
  }

  lemma DeadPerforms(file: File, size: nat, c: Cursor, op: Op)
    ensures c.dead && !op.OpTell? ==> Performs(file, size, c, op, Number(-1), c)
  {
  }

  lemma ReadPerforms(file: File, size: nat, c: Cursor, len: nat, data: seq<byte>, d: Cursor)
    requires !c.dead && len < 0x8000_0000 && data == Ahead(c)[..Min(len, |Ahead(c)|)]
    requires if len == 0 then d == c
        else d == Cursor(Ahead(c)[|data|..], Settled(c) + |data|, 0, false, d.room) && d.room > 0
    ensures Performs(file, size, c, OpRead(len), Bytes(data), d)
  {
  }

  lemma GetcPerforms(file: File, size: nat, c: Cursor, x: int, d: Cursor)
    requires !c.dead && !d.dead && d.pending == 0 && d.room > 0
    requires if Ahead(c) == [] then x == -1 && d.view == [] && d.pos == Settled(c)
             else x == Ahead(c)[0] && d.view == Ahead(c)[1..] && d.pos == Settled(c) + 1
    ensures Performs(file, size, c, OpGetc, Number(x), d)
  {
  }

  lemma UngetcPerforms(file: File, size: nat, c: Cursor, x: int, n: int, d: Cursor)
    requires !c.dead && d.pending == 0 && (n == x || n == -1)
    requires x < 0 ==> n == -1 && !d.dead && d.view == Ahead(c) && d.pos == Settled(c) && (d.room == 0 <==> c.room == 0)
    requires x >= 0 ==> (n == -1 <==> c.room == 0)
    requires x >= 0 && n == -1 ==> d == Cursor([], Settled(c), 0, true, 2 * size) && |Ahead(c)| >= 2 * size
    requires x >= 0 && n == x ==> !d.dead && d.view == [x % 256] + Ahead(c) && d.pos == Settled(c) - 1
    requires x >= 0 && n == x && c.pending == 0 ==> RoomAfterPush(size, c.room, d.room)
    ensures Performs(file, size, c, OpUngetc(x), Number(n), d)
  {
    assert Ahead(c)[0..] == Ahead(c);
  }

  lemma SeekPerforms(file: File, size: nat, c: Cursor, offset: int, fromStart: bool, n: int, d: Cursor)
    requires !c.dead && Seeks(file, c, if fromStart then offset else TellOf(c) + offset, Number(n), d)
    ensures Performs(file, size, c, OpSeek(offset, fromStart), Number(n), d)
  {
  }

  ghost predicate IsTrace(file: File, size: nat, ops: seq<Op>, replies: seq<Reply>, trace: seq<Cursor>) {
    && |replies| == |ops| && |trace| == |ops| + 1
    && forall k :: 0 <= k < |ops| ==> Performs(file, size, trace[k], ops[k], replies[k], trace[k + 1])
  }

  /** What is in front is the data. */
  ghost predicate IsClean(file: File, c: Cursor) {
    Sound(file, 0) && !c.dead && c.pos >= 0 && c.view == Drop(Data(file), c.pos)
  }

  /** A call that pushes nothing back, reads no more than an int can count and seeks no further back than the start. */
  predicate Ordinary(c: Cursor, op: Op) {
    && !op.OpUngetc?
    && (op.OpRead? ==> op.len < 0x8000_0000)
    && (op.OpSeek? ==> (if op.fromStart then op.offset else TellOf(c) + op.offset) >= 0)
  }

  /** Without pushing back, every read delivers the data at the position that Tell gives. */
  lemma OrdinaryStep(file: File, size: nat, c: Cursor, op: Op, r: Reply, d: Cursor)
    requires IsClean(file, c) && Ordinary(c, op) && Performs(file, size, c, op, r, d)
    ensures IsClean(file, d)
    ensures op.OpRead? ==> r == Bytes(Drop(Data(file), TellOf(c))[..Min(op.len, |Drop(Data(file), TellOf(c))|)])
    ensures op.OpSeek? ==>
        TellOf(d) == (if op.fromStart then op.offset else TellOf(c) + op.offset) && r == Number(TellOf(d))
  {
    hide Data, Sound, Drop;
    DropTwice(Data(file), c.pos, c.pending);
    if op.OpSeek? {
      SeekStaysClean(file, c, d);
    } else if op.OpRead? || op.OpGetc? {
      MovedStaysClean(file, c, if op.OpGetc? then Min(1, |Ahead(c)|) else Min(op.len, |Ahead(c)|), d.room);
    } else {
      NoDrop(Data(file));
    }
  }

  lemma SeekStaysClean(file: File, c: Cursor, d: Cursor)
    requires IsClean(file, c)
    ensures c.pos <= d.pos <= c.pos + |c.view| && d.view == c.view[d.pos - c.pos..] ==>
        d.view == Drop(Data(file), d.pos)
  {
    hide Data, Sound, Drop;
    if c.pos <= d.pos <= c.pos + |c.view| && d.view == c.view[d.pos - c.pos..] {
      StillClean(c.view, c.pos, d.view, d.pos, Data(file));
    }
  }

  lemma MovedStaysClean(file: File, c: Cursor, k: nat, room: nat)
    requires IsClean(file, c) && k <= |Ahead(c)|
    ensures IsClean(file, Moved(c, k, room))
  {
    hide Data, Sound, Drop;
    var n := Min(c.pending, |c.view|) + k;
    DropSlice(c.view, c.pending, k);
    StillClean(c.view, c.pos, c.view[n..], c.pos + n, Data(file));
  }

  lemma DropSlice(s: seq<byte>, n: nat, k: nat)
    requires k <= |Drop(s, n)|
    ensures Min(n, |s|) + k <= |s| && Drop(s, n)[k..] == s[Min(n, |s|) + k..]
  {
  }

  lemma {:induction false} OrdinaryTrace(file: File, size: nat, ops: seq<Op>, replies: seq<Reply>, trace: seq<Cursor>,
      k: nat)
    requires IsTrace(file, size, ops, replies, trace) && IsClean(file, trace[0]) && k <= |ops|
    requires forall i :: 0 <= i < |ops| ==> Ordinary(trace[i], ops[i])
    ensures IsClean(file, trace[k])
    ensures k < |ops| && ops[k].OpRead? ==>
      replies[k] == Bytes(Drop(Data(file), TellOf(trace[k]))[..Min(ops[k].len, |Drop(Data(file), TellOf(trace[k]))|)])
  {
    hide Performs, IsClean;
    if k > 0 {
      OrdinaryTrace(file, size, ops, replies, trace, k - 1);
      OrdinaryStep(file, size, trace[k - 1], ops[k - 1], replies[k - 1], trace[k]);
    }
    if k < |ops| {
      OrdinaryStep(file, size, trace[k], ops[k], replies[k], trace[k + 1]);
    }
  }

  // ----- push-back

  /** A byte was pushed back. */
  predicate Pushes(op: Op, r: Reply) {
    op.OpUngetc? && op.c >= 0 && r == Number(op.c)
  }

  /** A call that neither reads nor moves. */
  predicate Stays(c: Cursor, op: Op) {
    match op
    case OpRead(len) => len == 0
    case OpGetc => false
    case OpUngetc(x) => x < 0
    case OpSeek(offset, fromStart) => (if fromStart then offset else TellOf(c) + offset) <= c.pos
    case OpRewind => false
    case OpTell => true
  }

  /** Only a byte pushed back can leave no room, and any call that reads or moves on makes room. */
  lemma RoomStep(file: File, size: nat, c: Cursor, op: Op, r: Reply, d: Cursor)
    requires Performs(file, size, c, op, r, d) && size > 0 && !d.dead && d.room == 0
    ensures !c.dead && (Pushes(op, r) || (Stays(c, op) && c.room == 0))
  {
  }

  /** Where there is no room, a byte was pushed that was not read yet. */
  lemma {:induction false} FullMeansPushed(file: File, size: nat, ops: seq<Op>, replies: seq<Reply>, trace: seq<Cursor>,
      k: nat)
      returns (j: nat)
    requires IsTrace(file, size, ops, replies, trace) && size > 0 && trace[0].room > 0
    requires k <= |ops| && !trace[k].dead && trace[k].room == 0
    ensures j < k && Pushes(ops[j], replies[j]) && forall i :: j < i < k ==> Stays(trace[i], ops[i])
  {
    hide Performs;
    j := k - 1;
    RoomStep(file, size, trace[j], ops[j], replies[j], trace[k]);
    if !Pushes(ops[j], replies[j]) {
      j := FullMeansPushed(file, size, ops, replies, trace, j);
    }
  }

  /** One character of push-back is always allowed: a refusal means that one was pushed and not read yet. */
  lemma RefusalMeansPushed(file: File, size: nat, ops: seq<Op>, replies: seq<Reply>, trace: seq<Cursor>, k: nat)
      returns (j: nat)
    requires IsTrace(file, size, ops, replies, trace) && size > 0 && trace[0].room > 0
    requires k < |ops| && ops[k].OpUngetc? && ops[k].c >= 0 && !trace[k].dead && replies[k] == Number(-1)
    ensures j < k && Pushes(ops[j], replies[j]) && forall i :: j < i < k ==> Stays(trace[i], ops[i])
  {
    assert Performs(file, size, trace[k], ops[k], replies[k], trace[k + 1]);
    j := FullMeansPushed(file, size, ops, replies, trace, k);
  }

  lemma PushedView(file: File, size: nat, c: Cursor, x: nat, d: Cursor)
    requires IsClean(file, c) && Performs(file, size, c, OpUngetc(x), Number(x), d)
    ensures Sound(file, 0) && !d.dead && d.pending == 0 && d.pos >= -1
    ensures d.view == [x % 256] + Drop(Data(file), d.pos + 1)
  {
    hide Data, Sound, Drop;
    DropTwice(Data(file), c.pos, c.pending);
    DropLength(Data(file), c.pos, c.pending);
  }

  lemma DropLength(s: seq<byte>, n: nat, k: nat)
    ensures Drop(s, n + k) == Drop(s, n + Min(k, |Drop(s, n)|))
  {
  }

  lemma DropPushed(x: byte, s: seq<byte>, n: nat, k: nat)
    requires k > 0
    ensures Drop([x] + Drop(s, n), k) == Drop(s, n + k - 1)
  {
    assert ([x] + Drop(s, n))[1..] == Drop(s, n);
  }

  lemma DropRest(s: seq<byte>, n: nat, k: nat)
    requires n <= |s|
    ensures Drop(s[n..], k) == Drop(s, n + k)
  {
  }

  /** A byte that stands before the data, some of it passed over. */
  lemma PassedOver(s: seq<byte>, x: byte, view: seq<byte>, p: int, q: int, k: nat)
    requires p >= -1 && view == [x] + Drop(s, p + 1) && p <= q <= p + |view|
    ensures Drop(view[q - p..], k) == if q + k == p then view else Drop(s, q + k)
  {
    hide *;
    DropRest(view, q - p, k);
    if q + k > p {
      DropPushed(x, s, p + 1, q - p + k);
    } else {
      NoDrop(view);
    }
  }

  /** A seek forward over a byte that stands before the data. */
  lemma SoughtPast(file: File, d: Cursor, x: byte, target: int, r: Reply, e: Cursor)
    requires Sound(file, 0) && d.pos >= -1 && d.view == [x] + Drop(Data(file), d.pos + 1)
    requires Seeks(file, d, target, r, e) && target >= d.pos
    ensures Ahead(e) == if target == d.pos && (Magic(file, 0) || target < 0) then d.view else Drop(Data(file), target)
  {
    hide *;
    SeekForward(file, d, target, r, e);
    var view, data := d.view, Data(file);
    if !Magic(file, 0) && target >= 0 {
      DropTwice(data, e.pos, e.pending);
    } else {
      PassedOver(data, x, view, d.pos, e.pos, e.pending);
    }
  }

  /** The two ways of a seek forward. */
  lemma SeekForward(file: File, c: Cursor, target: int, r: Reply, d: Cursor)
    requires Sound(file, 0) && Seeks(file, c, target, r, d) && target >= c.pos
    ensures target == d.pos + d.pending && Ahead(d) == Drop(d.view, d.pending)
    ensures if !Magic(file, 0) && target >= 0 then d.pos >= 0 && d.view == Drop(Data(file), d.pos)
            else c.pos <= d.pos <= c.pos + |c.view| && d.view == c.view[d.pos - c.pos..]
  {
    hide Data, Sound, Magic, Drop;
  }

  lemma SeekIsSeeks(file: File, size: nat, c: Cursor, target: int, r: Reply, d: Cursor)
    requires !c.dead && Performs(file, size, c, OpSeek(target, true), r, d)
    ensures Seeks(file, c, target, r, d)
    ensures target >= c.pos ==> r == Number(target) && TellOf(d) == target
  {
    hide Data, Sound, Magic, Drop;
  }

  /**
   A seek forward after a byte was pushed back: the byte is dropped, except by a seek to where the
   reader stands, which keeps it if the file is compressed or the byte stands before the start.
   */
  lemma PushedThenSought(file: File, size: nat, c: Cursor, x: nat, d: Cursor, target: int, r: Reply, e: Cursor)
    requires IsClean(file, c) && Performs(file, size, c, OpUngetc(x), Number(x), d)
    requires Performs(file, size, d, OpSeek(target, true), r, e) && target >= d.pos
    ensures r == Number(target) && TellOf(e) == target && Sound(file, 0)
    ensures d.view == [x % 256] + Drop(Data(file), d.pos + 1) && d.pos >= -1
    ensures Ahead(e) == if target == d.pos && (Magic(file, 0) || target < 0) then d.view else Drop(Data(file), target)
  {
    hide *;
    PushedView(file, size, c, x, d);
    SeekIsSeeks(file, size, d, target, r, e);
    SoughtPast(file, d, x % 256, target, r, e);
  }

  /** Push-backs in a row succeed while they fit: as many as `size` on a reader that was just opened. */
  lemma {:induction false} PushesFit(file: File, size: nat, ops: seq<Op>, replies: seq<Reply>, trace: seq<Cursor>,
      k: nat)
    requires IsTrace(file, size, ops, replies, trace) && k <= |ops| <= Min(size, trace[0].room)
    requires !trace[0].dead && trace[0].pending == 0 && trace[0].room <= 2 * size
    requires forall i :: 0 <= i < |ops| ==> ops[i].OpUngetc? && ops[i].c >= 0
    ensures !trace[k].dead && trace[k].pending == 0 && Min(size, trace[0].room) - k <= trace[k].room <= 2 * size
    ensures forall i :: 0 <= i < k ==> Pushes(ops[i], replies[i])
  {
    if k > 0 {
      PushesFit(file, size, ops, replies, trace, k - 1);
      assert Performs(file, size, trace[k - 1], ops[k - 1], replies[k - 1], trace[k]);
    }
  }

  class Reader {
    const file: File
    const size: nat

    // the file descriptor, the input buffer and the inflate state
    var f: nat
    var eof: bool
    const input: array<byte>
    var nextIn: nat
    var availIn: nat
    var how: How
    var direct: bool
    var member: nat
    var produced: nat

    // the output buffer and the position
    const out: array<byte>
    var next: nat
    var have: nat
    var pos: int
    var past: bool
    var seek: bool
    var skip: int
    var failed: bool

    /** The input buffer holds the bytes of the file before `f`. */
    ghost predicate Buffer()
      reads `f, `nextIn, `availIn, input
    {
      && size >= 8 && input.Length == size && out.Length == 2 * size && input != out
      && nextIn + availIn <= size && availIn <= f && (availIn > 0 ==> f <= |file.bytes|)
      && (availIn > 0 ==> input[nextIn..nextIn + availIn] == file.bytes[f - availIn..f])
    }

    /** Where the reader is in the file. */
    ghost predicate Place()
      reads `f, `eof, `availIn, `how, `direct, `member, `produced
    {
      && availIn <= f && Sound(file, 0) && (eof ==> f >= |file.bytes| || availIn == 0)
      && (!direct ==> Magic(file, 0)) && (how != Copy ==> f <= |file.bytes|)
      && (how == Copy ==> availIn == 0 && direct && !Magic(file, 0))
      && (how == Look && !Terminal() ==> Sound(file, f - availIn) && (direct ==> f == availIn))
      && (how == Gzip ==> InMember())
    }

    ghost predicate InMember()
      reads `f, `eof, `availIn, `direct, `member, `produced
    {
      && availIn <= f <= |file.bytes| && (eof ==> f == |file.bytes|)
      && !direct && Magic(file, member) && Sound(file, member)
      && member <= f - availIn < file.end(member) && produced <= |file.content(member)|
    }

    /** The end of the input. */
    predicate Terminal()
      reads `eof, `availIn
    {
      eof && availIn == 0
    }

    /** The bytes still to come from the input side. */
    ghost function Rest(): seq<byte>
      requires Place()
      reads `f, `eof, `availIn, `how, `direct, `member, `produced
    {
      if Terminal() then []
      else match how
        case Look => Stream(file, f - availIn, direct)
        case Copy => Drop(file.bytes, f)
        case Gzip => file.content(member)[produced..] + Stream(file, file.end(member), false)
    }

    /** The position agrees with the file where the file is read directly. */
    predicate PosOk()
      reads `f, `have, `pos, `how, `direct, `eof, `availIn
    {
      && (how == Copy ==> f == pos + have)
      && (how == Look && direct ==> availIn == 0)
      && (how == Look && direct ==> if Terminal() then file.bytes == [] && pos + have == 0 else pos == 0 && have == 0)
    }

    /** The file has been looked at. */
    predicate Begun()
      reads `how, `direct, `eof, `availIn
    {
      how == Look && direct ==> Terminal()
    }

    lemma BufferShape()
      requires Buffer()
      ensures size >= 8 && out.Length == 2 * size && input != out && availIn <= f
    {
    }

    /** A member being read is not at the end. */
    lemma GzipGoesOn()
      requires Place()
      ensures how == Gzip ==> !Terminal()
    {
      if how == Gzip {
        MemberInFile(file, member);
      }
    }

    lemma FileLeft()
      requires Buffer() && Place()
      ensures how != Copy && !Terminal() ==> f - availIn <= |file.bytes|
    {
    }

    /** gz_load: `len` bytes of the file, or fewer if it ends; each read gives some of them. */
    method Load(len: nat) returns (data: seq<byte>)
      requires len > 0
      modifies `f, `eof
      ensures |data| <= len && data == file.bytes[Min(old(f), |file.bytes|)..Min(old(f) + |data|, |file.bytes|)]
      ensures f == old(f) + |data| && (data != [] ==> f <= |file.bytes|)
      ensures if |data| < len then eof && f >= |file.bytes| else eof == old(eof)
    {
      data := [];
      while |data| < len
        invariant |data| <= len && f == old(f) + |data| && (data != [] ==> f <= |file.bytes|)
        invariant data == file.bytes[Min(old(f), |file.bytes|)..Min(old(f) + |data|, |file.bytes|)]
        invariant eof == old(eof)
        decreases len - |data|
      {
        if f >= |file.bytes| {
          eof := true;
          return;
        }
        var limit := Min(len - |data|, |file.bytes| - f);
        assert 1 <= limit;
        var n: nat :| 1 <= n <= limit;
        data := data + file.bytes[f..f + n];
        f := f + n;
      }
    }

    /** Copies bytes into a buffer. */
    static method Fill(buf: array<byte>, at: nat, data: seq<byte>)
      requires at + |data| <= buf.Length
      modifies buf
      ensures buf[at..at + |data|] == data
      ensures buf[..at] == old(buf[..at]) && buf[at + |data|..] == old(buf[at + |data|..])
    {
      for k := 0 to |data|
        invariant buf[at..at + k] == data[..k]
        invariant buf[..at] == old(buf[..at]) && buf[at + |data|..] == old(buf[at + |data|..])
      {
        buf[at + k] := data[k];
        assert buf[at..at + k + 1] == buf[at..at + k] + [data[k]];
      }
    }

    /** gz_avail: moves what is left of the input to the front and loads the buffer. */
    method Refill()
      requires Buffer() && !eof && availIn < size
      modifies `f, `eof, `nextIn, `availIn, input
      ensures Buffer() && f - availIn == old(f - availIn) && availIn >= old(availIn)
      ensures if availIn < size then eof && f >= |file.bytes| else !eof
      ensures old(f) <= |file.bytes| ==> f <= |file.bytes|
    {
      var kept := input[nextIn..nextIn + availIn];
      ghost var f0 := f;
      Fill(input, 0, kept);
      assert input[..availIn] == kept;
      var data := Load(size - availIn);
      hide Buffer;
      Append(kept, data);
      Refilled(f0, kept, data);
    }

    lemma Refilled(f0: nat, kept: seq<byte>, data: seq<byte>)
      requires size >= 8 && input.Length == size && out.Length == 2 * size && input != out
      requires nextIn == 0 && availIn == |kept| + |data| <= size && input[..availIn] == kept + data && f == f0 + |data|
      requires |kept| <= f0 && (|kept| > 0 ==> f0 <= |file.bytes| && kept == file.bytes[f0 - |kept|..f0])
      requires data == file.bytes[Min(f0, |file.bytes|)..Min(f0 + |data|, |file.bytes|)]
      requires data != [] ==> f <= |file.bytes|
      ensures Buffer()
    {
      Joined(file.bytes, f0, kept, data);
      assert input[nextIn..nextIn + availIn] == input[..availIn];
    }

    /** Puts loaded bytes behind those kept at the front of the input buffer. */
    method Append(kept: seq<byte>, data: seq<byte>)
      requires input.Length == size && availIn == |kept| && |kept| + |data| <= size && input[..|kept|] == kept
      modifies `nextIn, `availIn, input
      ensures nextIn == 0 && availIn == |kept| + |data| && input[..availIn] == kept + data
    {
      Fill(input, availIn, data);
      assert input[..|kept| + |data|] == input[..|kept|] + input[|kept|..|kept| + |data|];
      availIn := availIn + |data|;
      nextIn := 0;
    }

    /** gz_avail leaves the reader where it is. */
    method Avail()
      requires Buffer() && Place() && (eof || availIn < 8) && how != Copy
      modifies `f, `eof, `nextIn, `availIn, input
      ensures Buffer() && Place() && Rest() == old(Rest()) && f - availIn == old(f - availIn)
      ensures availIn >= old(availIn) && (old(eof) ==> availIn == old(availIn)) && (availIn == 0 ==> eof) &&
          (availIn == 1 ==> f == |file.bytes|)
      ensures availIn == 0 && !old(Terminal()) ==> f == |file.bytes|
    {
      hide Sound, Stream;
      if !eof {
        ghost var rest := Rest();
        if how == Gzip {
          MemberInFile(file, member);
        }
        Refill();
        StreamAtEnd(file, f - availIn, direct);
      }
    }

    /** Whether the input buffer starts with the magic bytes; the buffer has two bytes if the file has. */
    lemma MagicSeen()
      requires Buffer() && availIn > 0 && (availIn > 1 || f == |file.bytes|)
      ensures nextIn + availIn <= input.Length && availIn <= f <= |file.bytes|
      ensures Magic(file, f - availIn) <==> availIn > 1 && input[nextIn] == 31 && input[nextIn + 1] == 139
    {
      ghost var b := input[nextIn..nextIn + availIn];
      assert b[0] == input[nextIn] && (availIn > 1 ==> b[1] == input[nextIn + 1]);
    }

    /** The beginning of a member. */
    method EnterMember()
      requires Place() && how == Look && availIn > 1 && f <= |file.bytes| && Magic(file, f - availIn)
      modifies `how, `direct, `member, `produced
      ensures Place() && how == Gzip && !direct && Rest() == old(Rest())
    {
      MemberInFile(file, f - availIn);
      ghost var content := file.content(f - availIn);
      assert content[0..] == content;
      member, produced := f - availIn, 0;
      how, direct := Gzip, false;
      hide Sound;
    }

    /** Trailing garbage after a member is the end. */
    method IgnoreGarbage()
      requires Buffer() && Place() && how == Look && !direct && availIn > 0 && !Magic(file, f - availIn)
      modifies `availIn, `eof
      ensures Buffer() && Place() && Terminal() && old(Rest()) == []
    {
      hide Sound;
      availIn, eof := 0, true;
    }

    /** No member: the file is copied, and what was loaded goes first. */
    method EnterCopy()
      requires Buffer() && Place() && how == Look && direct && availIn > 0 && !Magic(file, f - availIn)
      modifies `nextIn, `availIn, `how, `direct, `next, `have, out
      ensures Buffer() && Place() && how == Copy && next == 0 && have == f == old(availIn) <= size <= out.Length
      ensures out[..have] + Rest() == old(Rest())
    {
      hide Sound, Drop, Stream, Buffer;
      BufferShape();
      BufferSlice();
      var left := input[nextIn..nextIn + availIn];
      CopyStart(left);
      Fill(out, 0, left);
      next, have := 0, availIn;
      Take(availIn);
      how, direct := Copy, true;
      assert out[..have] == left;
    }

    lemma BufferSlice()
      requires Buffer()
      ensures nextIn + availIn <= input.Length && availIn <= size
    {
    }

    /** What was loaded, and the rest of the file, are what was ahead. */
    lemma CopyStart(left: seq<byte>)
      requires Buffer() && Place() && how == Look && direct && availIn > 0 && !Magic(file, f - availIn)
      requires left == input[nextIn..nextIn + availIn]
      ensures |left| == f == availIn <= |file.bytes| && left + Drop(file.bytes, f) == Rest()
      ensures f >= |file.bytes| ==> Drop(file.bytes, f) == []
      ensures !Magic(file, 0)
    {
      hide Sound;
      assert left == file.bytes[..f];
      assert left + file.bytes[f..] == file.bytes;
    }

    /** gz_look once there is input. */
    method Classify()
      requires Buffer() && Place() && how == Look && have == 0 && next <= out.Length
      requires availIn > 0 && (availIn == 1 ==> f == |file.bytes|)
      modifies `eof, `nextIn, `availIn, `how, `direct, `member, `produced, `next, `have, out
      ensures Buffer() && Place() && next + have <= out.Length
      ensures out[next..next + have] + Rest() == old(Rest())
      ensures how == Look ==> Terminal() && have == 0 && (direct ==> old(Terminal()) || file.bytes == [])
      ensures direct ==> old(direct)
      ensures how == Gzip ==> have == 0 && f - availIn == old(f - availIn)
      ensures how == Copy ==> 0 < have <= size && f == have && old(direct) && !old(Terminal())
    {
      hide Sound, Stream, Rest, Magic, Drop, Buffer, Place;
      MagicSeen();
      if availIn > 1 && input[nextIn] == 31 && input[nextIn + 1] == 139 {
        EnterMember();
      } else if !direct {
        IgnoreGarbage();
        have := 0;
        NothingLeft();
      } else {
        EnterCopy();
        assert out[next..next + have] == out[..have];
      }
    }

    /** gz_look: a member, the end, or a file to be copied, whose first bytes go to the output buffer. */
    method LookForHeader()
      requires Buffer() && Place() && how == Look && have == 0 && next <= out.Length
      modifies `f, `eof, `nextIn, `availIn, `how, `direct, `member, `produced, `next, `have, input, out
      ensures Buffer() && Place() && next + have <= out.Length
      ensures out[next..next + have] + Rest() == old(Rest())
      ensures how == Look ==> Terminal() && have == 0 && (direct ==> old(Terminal()) || file.bytes == [])
      ensures direct ==> old(direct)
      ensures how == Gzip ==> have == 0 && f - availIn == old(f - availIn)
      ensures how == Copy ==> 0 < have <= size && f == have && old(direct) && !old(Terminal())
    {
      hide Sound, Stream, Rest, Magic, Drop, Place, Buffer;
      AtStart();
      if availIn < 2 {
        Avail();
        if availIn == 0 {
          NothingLeft();
          return;
        }
      }
      Classify();
    }

    lemma AtStart()
      requires Place()
      ensures how == Look && direct && !Terminal() ==> f == availIn
    {
    }

    lemma NothingLeft()
      requires Place() && Terminal()
      ensures Rest() == []
    {
    }

    /** inflate: how much it takes and makes. */
    method Inflate(room: nat) returns (c: nat, q: nat)
      requires availIn <= f && availIn > 0 && room > 0
      requires f - availIn < file.end(member) && produced <= |file.content(member)|
      ensures Inflates(file, member, f - availIn, produced, availIn, room, c, q)
    {
      ghost var c0, q0 := InflateCan(file, member, f - availIn, produced, availIn, room);
      c, q :| Inflates(file, member, f - availIn, produced, availIn, room, c, q);
    }

    /** next_in and avail_in after `c` bytes are taken. */
    method Take(c: nat)
      requires Buffer() && c <= availIn
      modifies `nextIn, `availIn
      ensures Buffer() && availIn == old(availIn) - c
    {
      if availIn > 0 {
        Shorter(input[..], file.bytes, nextIn, f, availIn, c);
      }
      nextIn := nextIn + c;
      availIn := availIn - c;
      assert input[..][nextIn..nextIn + availIn] == input[nextIn..nextIn + availIn];
    }

    /** One call of inflate, and what gz_decomp makes of the end of a member. */
    method InflateOnce(room: nat) returns (made: seq<byte>)
      requires Buffer() && Place() && how == Gzip && availIn > 0 && room > 0
      modifies `nextIn, `availIn, `how, `produced
      ensures Buffer() && Place() && made + Rest() == old(Rest()) && |made| <= room
      ensures f - availIn >= old(f - availIn) && produced == old(produced) + |made|
      ensures how == Gzip ==> f - availIn + produced > old(f - availIn + produced)
      ensures how == Gzip || (how == Look && f - availIn > old(f - availIn))
    {
      hide Sound, Buffer, Stream, Magic, Rest;
      MemberInFile(file, member);
      RestInMember();
      ghost var content, p := file.content(member), produced;
      var c, q := Inflate(room);
      made := file.content(member)[produced..produced + q];
      produced := produced + q;
      Take(c);
      assert content[p..] == made + content[produced..];
      Associate(made, content[produced..], Stream(file, file.end(member), false));
      if f - availIn == file.end(member) {
        how := Look;
        RestAfterMember();
        assert content[produced..] + Rest() == Rest();
      } else {
        RestInMember();
      }
    }

    lemma RestInMember()
      requires Place() && how == Gzip
      ensures Sound(file, file.end(member))
      ensures Rest() == file.content(member)[produced..] + Stream(file, file.end(member), false)
    {
      MemberInFile(file, member);
      hide Sound, Stream;
    }

    /** A member that was read to its end. */
    lemma RestAfterMember()
      requires how == Look && !direct && availIn <= f <= |file.bytes| && (eof ==> f == |file.bytes|) && Sound(file, 0)
      requires Magic(file, 0) && f - availIn == file.end(member) && Sound(file, file.end(member))
      ensures Place() && Rest() == Stream(file, file.end(member), false)
    {
      hide Sound, Magic;
      StreamAtEnd(file, file.end(member), false);
      hide Stream;
    }

    /** gz_decomp: up to `n` bytes of the member, fewer only at its end. */
    method Decomp(n: nat) returns (data: seq<byte>)
      requires Buffer() && Place() && how == Gzip && n > 0
      modifies `f, `eof, `nextIn, `availIn, `how, `produced, input
      ensures Buffer() && Place() && data + Rest() == old(Rest()) && |data| <= n
      ensures how == Look || (how == Gzip && |data| == n)
      ensures how == Look ==> f - availIn > old(f - availIn)
    {
      hide Sound, Buffer, Stream, Magic, Drop, Rest;
      data := [];
      var done := false;
      ghost var rest := Rest();
      assert data + Rest() == rest;
      while !done
        invariant Buffer() && Place() && data + Rest() == rest && |data| <= n && f - availIn >= old(f - availIn)
        invariant if how == Gzip then (done <==> |data| == n) else how == Look && done && f - availIn > old(f - availIn)
        decreases how == Gzip, if how == Gzip then file.end(member) - (f - availIn) + |file.content(member)| - produced
            else 0
      {
        if availIn == 0 {
          Avail();
        }
        MemberInFile(file, member);
        var q := InflateOnce(n - |data|);
        Associate(data, q, Rest());
        data := data + q;
        done := how == Look || |data| == n;
      }
    }

    /** Bytes placed at the start of the output buffer. */
    method Present(data: seq<byte>)
      requires |data| <= out.Length
      modifies `next, `have, out
      ensures next == 0 && have == |data| && out[next..next + have] == data
    {
      Fill(out, 0, data);
      next, have := 0, |data|;
    }

    /** The COPY case of gz_fetch. */
    method FetchCopy()
      requires Buffer() && Place() && how == Copy && have == 0 && !Terminal()
      modifies `f, `eof, `next, `have, out
      ensures Buffer() && Place() && next + have <= out.Length && out[next..next + have] + Rest() == old(Rest())
      ensures f == old(f) + have && (have > 0 || Terminal())
    {
      hide Sound, Stream, Drop;
      ghost var f0 := f;
      var data := Load(2 * size);
      Present(data);
      Loaded(file.bytes, f0, data);
    }

    /** The GZIP case of gz_fetch. */
    method FetchMember()
      requires Buffer() && Place() && how == Gzip && have == 0
      modifies `f, `eof, `nextIn, `availIn, `how, `produced, `next, `have, input, out
      ensures Buffer() && Place() && next + have <= out.Length && out[next..next + have] + Rest() == old(Rest())
      ensures how == Gzip ==> have > 0
      ensures how == Gzip || (how == Look && !direct && f - availIn > old(f - availIn))
    {
      hide Sound, Stream, Rest, Magic, Drop, InMember;
      NotDirect();
      var data := Decomp(2 * size);
      Present(data);
    }

    lemma NotDirect()
      requires Place()
      ensures how == Gzip ==> !direct
    {
    }

    /** One turn of the loop of gz_fetch. */
    method FetchTurn() returns (more: bool)
      requires Buffer() && Place() && have == 0 && next <= out.Length && PosOk() && !Terminal()
      modifies `f, `eof, `nextIn, `availIn, `how, `direct, `member, `produced, `next, `have, input, out
      ensures Buffer() && Place() && next + have <= out.Length && out[next..next + have] + Rest() == old(Rest()) &&
          PosOk()
      ensures if more then have == 0 && !Terminal() else have > 0 || Terminal()
      ensures more ==> how != Copy && f - availIn <= |file.bytes|
      ensures more && old(how) == Look ==> how == Gzip && f - availIn == old(f - availIn)
      ensures more && old(how) == Gzip ==> how == Look && f - availIn > old(f - availIn)
      ensures old(how) == Copy ==> !more
    {
      hide Sound, Stream, Rest, Buffer, InMember, Magic, Drop, Place;
      BufferShape();
      if how == Look {
        LookForHeader();
        GzipGoesOn();
      } else if how == Copy {
        FetchCopy();
      } else {
        FetchMember();
      }
      FileLeft();
      more := how != Copy && have == 0 && (!eof || availIn != 0);
    }

    /** gz_fetch: what comes next goes to the output buffer, unless nothing does. */
    method Fetch()
      requires Buffer() && Place() && have == 0 && next <= out.Length && PosOk() && !Terminal()
      modifies `f, `eof, `nextIn, `availIn, `how, `direct, `member, `produced, `next, `have, input, out
      ensures Buffer() && Place() && next + have <= out.Length && out[next..next + have] + Rest() == old(Rest())
      ensures PosOk() && (have > 0 || Terminal())
    {
      hide Rest, Buffer, PosOk, Place;
      ghost var rest := Rest();
      var more := true;
      assert out[next..next + have] + Rest() == rest;
      FileLeft();
      while more
        invariant Buffer() && Place() && next + have <= out.Length && out[next..next + have] + Rest() == rest && PosOk()
        invariant if more then have == 0 && !Terminal() else have > 0 || Terminal()
        invariant more && how != Copy ==> f - availIn <= |file.bytes|
        decreases more, if how == Copy then 0 else |file.bytes| - (f - availIn), how == Look
      {
        assert out[next..next + have] == [];
        more := FetchTurn();
      }
    }

    // ----- the cursor

    /** What is still to be delivered, but for a pending seek. */
    ghost function View(): seq<byte>
      requires Valid()
      reads `f, `eof, `nextIn, `availIn, `how, `direct, `member, `produced, `next, `have, input, out, `pos, `seek,
          `skip, `failed
    {
      out[next..next + have] + Rest()
    }

    /** Between calls; a pending seek means an empty output buffer. */
    ghost predicate Valid()
      reads `f, `eof, `nextIn, `availIn, `how, `direct, `member, `produced, `next, `have, input, `pos, `seek, `skip,
          `failed
    {
      && !failed && Sound(file, 0) && Buffer() && Place() && next + have <= out.Length && PosOk()
      && (seek ==> have == 0 && skip > 0)
    }

    /** The bytes a pending seek will pass over. */
    function Pending(): nat
      requires seek ==> skip > 0
      reads `seek, `skip
    {
      if seek then skip else 0
    }

    /** What reads will deliver. */
    ghost function Ahead(): seq<byte>
      requires Valid()
      reads `f, `eof, `nextIn, `availIn, `how, `direct, `member, `produced, `next, `have, input, out, `pos, `seek,
          `skip, `failed
    {
      Drop(View(), Pending())
    }

    /** gztell64 */
    function Tell(): int
      requires seek ==> skip > 0
      reads `pos, `seek, `skip
    {
      pos + Pending()
    }

    /** The view is the data from the position on: so it is unless bytes were pushed back. */
    ghost predicate Clean()
      requires Valid()
      reads `f, `eof, `nextIn, `availIn, `how, `direct, `member, `produced, `next, `have, input, out, `pos, `seek,
          `skip, `failed
    {
      pos >= 0 && View() == Drop(Data(file), pos)
    }

    /** How many more bytes the output buffer could hold. */
    function Room(): int
      reads `have
    {
      2 * size - have
    }

    lemma BufferFits()
      requires Valid()
      ensures 0 <= Room() && size >= 8
    {
    }

    /** Passes over `n` bytes of the output buffer. */
    method Advance(n: nat)
      requires Valid() && n <= have && !seek
      modifies `next, `have, `pos
      ensures Valid() && View() == old(View())[n..] && pos == old(pos) + n && n <= |old(View())|
      ensures have == old(have) - n
    {
      hide Sound, Stream, Rest, Buffer;
      assert out[next..next + have][n..] == out[next + n..next + have];
      next, have, pos := next + n, have - n, pos + n;
    }

    /** gz_fetch keeps the cursor. */
    method FetchMore()
      requires Valid() && have == 0 && !Terminal() && !seek
      modifies `f, `eof, `nextIn, `availIn, `how, `direct, `member, `produced, `next, `have, input, out
      ensures Valid() && View() == old(View()) && (have > 0 || Terminal()) && Begun()
    {
      hide Sound, Stream, Rest, Buffer, Place;
      Fetch();
      assert out[next..next] == [];
    }

    lemma EmptyView()
      requires Valid()
      ensures have == 0 && Terminal() ==> View() == []
    {
    }

    /** gz_skip */
    method Skip(len: nat)
      requires Valid() && !seek
      modifies `f, `eof, `nextIn, `availIn, `how, `direct, `member, `produced, `next, `have, input, out, `pos
      ensures Valid() && !seek && View() == Drop(old(View()), len) && pos == old(pos) + Min(len, |old(View())|)
      ensures old(Begun()) ==> Begun()
      ensures len > 0 ==> Room() > 0
    {
      hide Valid, View;
      var left: nat := len;
      ghost var view, p := View(), pos;
      while left != 0
        invariant Valid() && !seek && left <= len && len - left <= |view| && View() == view[len - left..] &&
            pos == p + (len - left)
        invariant old(Begun()) ==> Begun()
        invariant len > 0 && left == 0 ==> Room() > 0
        decreases left, have == 0 && !Terminal()
      {
        if have != 0 {
          var n := Min(have, left);
          BufferFits();
          Advance(n);
          left := left - n;
        } else if Terminal() {
          EmptyView();
          BufferFits();
          break;
        } else {
          FetchMore();
        }
      }
    }

    /** Whether data must be fetched. */
    predicate Dry()
      reads `have, `eof, `availIn
    {
      have == 0 && !Terminal()
    }

    /** How much of the file is left to be interpreted. */
    ghost function FileAhead(): nat
      requires Valid()
      reads `f, `eof, `nextIn, `availIn, `how, `direct, `member, `produced, `next, `have, input, `pos, `seek, `skip,
          `failed
    {
      if how == Copy || f - availIn > |file.bytes| then 0 else |file.bytes| - (f - availIn)
    }

    /** The copy out of the output buffer. */
    method ReadBuffered(n: nat) returns (chunk: seq<byte>)
      requires Valid() && !seek && 0 < n && have > 0
      modifies `next, `have, `pos
      ensures Valid() && !seek && 0 < |chunk| <= n && chunk + View() == old(View()) && pos == old(pos) + |chunk| &&
          Room() > 0
    {
      hide Sound, Stream, Rest, Buffer, Place, PosOk;
      BufferFits();
      var k := Min(n, have);
      chunk := out[next..next + k];
      ghost var view := View();
      assert view[..k] == chunk;
      Advance(k);
      assert view == view[..k] + view[k..];
    }

    /** A large read of a file that is copied goes to the caller directly. */
    method ReadCopied(n: nat) returns (chunk: seq<byte>)
      requires Valid() && !seek && 0 < n && Dry() && how == Copy
      modifies `f, `eof, `pos
      ensures Valid() && !seek && |chunk| <= n && chunk + View() == old(View()) && pos == old(pos) + |chunk|
      ensures chunk == [] ==> !Dry()
    {
      hide Sound, Stream, Drop;
      ghost var f0 := f;
      chunk := Load(n);
      Loaded(file.bytes, f0, chunk);
      pos := pos + |chunk|;
      assert out[next..next] == [];
    }

    /** A large read of a member is decompressed into the caller's buffer. */
    method ReadMember(n: nat) returns (chunk: seq<byte>)
      requires Valid() && !seek && 0 < n && Dry() && how == Gzip
      modifies `f, `eof, `nextIn, `availIn, `how, `produced, `pos, input
      ensures Valid() && !seek && |chunk| <= n && chunk + View() == old(View()) && pos == old(pos) + |chunk|
      ensures chunk == [] ==> !Dry() || FileAhead() < old(FileAhead())
    {
      hide Sound, Stream, Rest, Buffer;
      BufferShape();
      chunk := Decomp(n);
      BufferShape();
      pos := pos + |chunk|;
      assert out[next..next] == [];
    }

    /** One turn of the loop of gz_read. */
    method ReadTurn(len: nat) returns (chunk: seq<byte>, stop: bool)
      requires Valid() && !seek && len > 0
      modifies `f, `eof, `nextIn, `availIn, `how, `direct, `member, `produced, `next, `have, input, out, `pos, `past
      ensures Valid() && !seek && |chunk| <= len && chunk + View() == old(View()) && pos == old(pos) + |chunk|
      ensures stop ==> View() == []
      ensures stop || chunk != [] ==> Room() > 0
      ensures !stop && chunk == [] ==> old(Dry()) && (!Dry() || FileAhead() < old(FileAhead()))
    {
      hide Valid, View, FileAhead;
      BufferFits();
      var n := Min(len, 0xffff_ffff);
      chunk, stop := [], false;
      if have != 0 {
        chunk := ReadBuffered(n);
      } else if Terminal() {
        EmptyView();
        past := true;
        stop := true;
      } else if how == Look || n < 2 * size {
        FetchMore();
      } else if how == Copy {
        chunk := ReadCopied(n);
      } else {
        chunk := ReadMember(n);
      }
    }

    /** The loop of gz_read. */
    method ReadLoop(len: nat) returns (data: seq<byte>)
      requires Valid() && !seek
      modifies `f, `eof, `nextIn, `availIn, `how, `direct, `member, `produced, `next, `have, input, out, `pos, `past
      ensures Valid() && !seek && data + View() == old(View()) && pos == old(pos) + |data|
      ensures |data| == Min(len, |old(View())|) && (len > 0 ==> Room() > 0)
    {
      hide Valid, View, FileAhead;
      data := [];
      ghost var view := View();
      while |data| < len
        invariant Valid() && !seek && |data| <= len && data + View() == view && pos == old(pos) + |data|
        invariant |data| == len > 0 ==> Room() > 0
        decreases len - |data|, Dry(), FileAhead()
      {
        var chunk, stop := ReadTurn(len - |data|);
        Associate(data, chunk, View());
        data := data + chunk;
        if stop {
          return;
        }
      }
    }

    /** The cursor after a pending seek is carried out. */
    method CarryOut()
      requires Valid()
      modifies `f, `eof, `nextIn, `availIn, `how, `direct, `member, `produced, `next, `have, input, out, `pos, `seek
      ensures Valid() && !seek && View() == old(Ahead()) && pos == old(Settled())
      ensures if old(seek) then Room() > 0 else Room() == old(Room())
    {
      hide Valid, View, Drop;
      SkipAhead();
      NoDrop(View());
      if seek {
        var n := skip;
        ClearSkip();
        Skip(n);
      }
    }

    lemma SkipAhead()
      requires Valid()
      ensures seek ==> skip > 0
    {
      hide Buffer, Place, PosOk;
    }

    /** gz_read: the next `len` bytes of what is ahead, or all of it. */
    method Read(len: nat) returns (data: seq<byte>)
      requires Valid()
      modifies `f, `eof, `nextIn, `availIn, `how, `direct, `member, `produced, `next, `have, input, out, `pos, `past,
          `seek
      ensures Valid() && data == old(Ahead())[..Min(len, |old(Ahead())|)] && Ahead() == old(Ahead())[|data|..]
      ensures len > 0 ==> !seek && pos == old(Settled()) + |data| && Room() > 0
      ensures len == 0 ==> Room() == old(Room()) && seek == old(seek) && pos == old(pos) && View() == old(View())
      ensures old(Clean()) ==> Clean()
    {
      hide Buffer, Place, Rest, PosOk, View;
      data := [];
      if len == 0 {
        return;
      }
      ghost var view, p := View(), pos;
      CarryOut();
      ghost var middle := View();
      data := ReadLoop(len);
      Cut(data, View(), middle);
      StillClean(view, p, View(), pos, Data(file));
    }

    /** gzgetc: the fast path needs no look at a pending seek. */
    method Getc() returns (c: int)
      requires Valid()
      modifies `f, `eof, `nextIn, `availIn, `how, `direct, `member, `produced, `next, `have, input, out, `pos, `past,
          `seek
      ensures Valid() && !seek && (old(Clean()) ==> Clean()) && Room() > 0
      ensures if old(Ahead()) == [] then c == -1 && View() == [] && pos == old(Settled())
        else c == old(Ahead())[0] && View() == old(Ahead())[1..] && pos == old(Settled()) + 1
    {
      hide Valid, Clean, View;
      if have != 0 {
        c := GetcBuffered();
      } else {
        var buf := Read(1);
        NoDrop(View());
        c := if |buf| < 1 then -1 else buf[0];
      }
    }

    /** The fast path. */
    method GetcBuffered() returns (c: int)
      requires Valid() && have != 0
      modifies `next, `have, `pos
      ensures Valid() && !seek && (old(Clean()) ==> Clean()) && Room() > 0
      ensures old(Ahead()) != [] && c == old(Ahead())[0] && View() == old(Ahead())[1..] && pos == old(Settled()) + 1
    {
      hide Buffer, Place, Rest, PosOk, Sound, View, Drop, Data;
      ghost var view, p := View(), pos;
      NoDrop(view);
      FirstInView();
      BufferFits();
      c := out[next];
      Advance(1);
      StillClean(view, p, View(), pos, Data(file));
    }

    lemma FirstInView()
      requires Valid() && have > 0
      ensures |View()| > 0 && View()[0] == out[next]
    {
      hide Rest;
    }

    /** Makes room in front of the output data, if there is room at all. */
    method SlideOutput()
      requires Valid() && !seek && 0 < have < 2 * size
      modifies `next, out
      ensures Valid() && next > 0 && View() == old(View())
    {
      hide Rest, Place, Sound;
      if next == 0 {
        var data := out[..have];
        Fill(out, out.Length - have, data);
        next := out.Length - have;
        assert out[next..next + have] == data;
      }
    }

    /** The byte `c` in front of the output data. */
    method PushFront(c: byte)
      requires Valid() && !seek && next > 0 && Begun()
      modifies `next, `have, `pos, out
      ensures Valid() && View() == [c] + old(View()) && pos == old(pos) - 1 && Room() == old(Room()) - 1
    {
      hide Rest, Place, Sound;
      ghost var tail := out[next..next + have];
      have, next, pos := have + 1, next - 1, pos - 1;
      out[next] := c;
      assert out[next..next + have] == [c] + tail;
      Associate([c], tail, Rest());
    }

    /** gz_look at the start of gzungetc, in case the file was just opened. */
    method LookFirst()
      requires Valid()
      modifies `f, `eof, `nextIn, `availIn, `how, `direct, `member, `produced, `next, `have, input, out
      ensures Buffer() && Place() && next + have <= out.Length && PosOk() && Sound(file, 0)
      ensures out[next..next + have] + Rest() == old(View())
      ensures Begun() && if old(have) == 0 then have <= size else have == old(have)
    {
      hide Rest, Sound, InMember, Magic;
      if how == Look && have == 0 {
        assert out[next..next + have] + Rest() == Rest();
        LookForHeader();
      }
    }

    /** A pending seek is carried out before a byte is pushed. */
    method PrepareUngetc()
      requires Valid()
      modifies `f, `eof, `nextIn, `availIn, `how, `direct, `member, `produced, `next, `have, input, out, `pos, `seek
      ensures Valid() && !seek && Begun() && View() == old(Ahead())
      ensures pos == old(Settled())
      ensures if old(have) > 0 then have == old(have) else if old(seek) then Room() > 0 else have <= size
    {
      hide Rest, Sound, Place, Buffer, PosOk;
      LookFirst();
      if seek {
        seek := false;
        Skip(skip);
      }
    }

    /**
     gzungetc when nothing failed: `c`, cut to a byte, comes before what is ahead, unless the output
     buffer is full, which is an error.
     */
    method Ungetc(c: int) returns (r: int)
      requires Valid()
      modifies `f, `eof, `nextIn, `availIn, `how, `direct, `member, `produced, `next, `have, input, out, `pos, `past,
          `seek, `failed
      ensures r == c || r == -1
      ensures c >= 0 ==> (r == -1 <==> old(Room()) == 0)
      ensures c < 0 ==> Valid() && r == -1 && !seek && View() == old(Ahead()) && pos == old(Settled())
      ensures c < 0 ==> (Room() == 0 <==> old(Room()) == 0)
      ensures c >= 0 && r == c && !old(seek) ==> RoomAfterPush(size, old(Room()), Room())
      ensures c >= 0 && r == -1 ==> Dead() && !seek && |old(Ahead())| >= 2 * size && pos == old(Settled())
      ensures c >= 0 && r == c ==>
          Valid() && !seek && View() == [c % 256] + old(Ahead()) && pos == old(Settled()) - 1 && !past
    {
      hide Valid, View, Dead, Begun, Settled, Ahead;
      BufferFits();
      PrepareUngetc();
      if c < 0 {
        return -1;
      }
      r := PushBack(c);
    }

    /** The rest of gzungetc, when no seek is pending. */
    method PushBack(c: nat) returns (r: int)
      requires Valid() && !seek && Begun()
      modifies `next, `have, `pos, `past, `failed, out
      ensures r == if old(Room()) == 0 then -1 else c
      ensures r == -1 ==> Dead() && |old(View())| >= 2 * size && pos == old(pos)
      ensures r == c ==>
        && Valid() && View() == [c % 256] + old(View()) && pos == old(pos) - 1 && !past && Room() == old(Room()) - 1
    {
      hide Valid, View, Dead, Begun;
      BufferFits();
      if have == 0 {
        ToEnd();
      } else if have == 2 * size {
        BufferInView();
        Fail();
        return -1;
      } else {
        SlideOutput();
      }
      PushFront(c % 256);
      past := false;
      return c;
    }

    lemma BufferInView()
      requires Valid()
      ensures |View()| >= have
    {
    }

    /** Where a pending seek will lead: not past the end. */
    ghost function Settled(): int
      requires Valid()
      reads `f, `eof, `nextIn, `availIn, `how, `direct, `member, `produced, `next, `have, input, out, `pos, `seek,
          `skip, `failed
    {
      pos + Min(Pending(), |View()|)
    }

    /** After an error that is fatal the output buffer is empty, and nothing can be read any more. */
    ghost predicate Dead()
      reads `f, `eof, `nextIn, `availIn, `how, `direct, `member, `produced, `next, `have, input, `seek, `skip, `failed
    {
      failed && Sound(file, 0) && Buffer() && Place() && have == 0 && next <= out.Length
      && (how == Look && direct ==> availIn == 0) && (seek ==> skip > 0)
    }

    /** gz_error with a fatal error. */
    method Fail()
      requires Valid()
      modifies `have, `failed
      ensures Dead() && have == 0
    {
      hide Rest, Sound, Place, Buffer;
      have := 0;
      failed := true;
    }

    /** An empty output buffer takes pushed bytes from its end. */
    method ToEnd()
      requires Valid() && !seek && have == 0
      modifies `next
      ensures Valid() && next > 0 && View() == old(View())
    {
      hide Rest, Place, Sound;
      assert out[next..next] == [] && out[2 * size..2 * size] == [];
      next := 2 * size;
    }

    /** gz_open and gz_reset for reading. */
    constructor (file: File, size: nat)
      requires size >= 8 && Sound(file, 0)
      ensures Valid() && Clean() && Tell() == 0 && this.file == file && this.size == size && !seek && Room() == 2 * size
      ensures fresh(input) && fresh(out)
    {
      this.file, this.size := file, size;
      input := new byte[size](_ => 0);
      out := new byte[2 * size](_ => 0);
      f, eof, nextIn, availIn, how, direct, member, produced := 0, false, 0, 0, Look, true, 0, 0;
      next, have, pos, past, seek, skip, failed := 0, 0, 0, false, false, 0, false;
      new;
      hide Sound;
      assert out[0..0] == [] && Drop(Data(file), 0) == Data(file);
    }

    /** gzrewind and gz_reset: the data from the start, also if a member was found before. */
    method Rewind()
      requires Valid()
      modifies `f, `eof, `availIn, `how, `have, `pos, `past, `seek
      ensures Valid() && !seek && pos == 0 && have == 0 && View() == Data(file) && Clean()
    {
      hide Sound, Stream;
      f, have, eof, past, how, seek, pos, availIn := 0, 0, false, false, Look, false, 0, 0;
      hide Buffer, Place;
      Rewound();
    }

    lemma Rewound()
      requires size >= 8 && input.Length == size && out.Length == 2 * size && input != out && Sound(file, 0)
      requires nextIn <= size && next <= out.Length && (!direct ==> Magic(file, 0))
      requires f == 0 && have == 0 && !eof && how == Look && !seek && pos == 0 && availIn == 0 && !failed
      ensures Valid() && View() == Data(file) && Clean()
    {
      hide Sound, Stream;
      RewoundStream(file, direct);
      assert out[next..next] == [] && Drop(Data(file), 0) == Data(file);
    }

    /** A seek inside a file that is copied moves the file position. */
    method SeekCopied(offset: int)
      requires Valid() && how == Copy && pos + offset >= 0
      modifies `f, `eof, `availIn, `have, `pos, `past, `seek
      ensures Valid() && !seek && pos == old(pos) + offset && View() == Drop(Data(file), pos) && have == 0
    {
      hide Sound, Stream;
      CopiedStream(file);
      f := f + offset - have;
      have, eof, past, seek, availIn := 0, false, false, false, 0;
      pos := pos + offset;
      assert out[next..next] == [];
    }

    method SetSkip(n: nat)
      requires Valid() && !seek && (n > 0 ==> have == 0)
      modifies `seek, `skip
      ensures Valid() && Tell() == pos + n && View() == old(View()) && Pending() == n
    {
      hide Sound, Rest, Place, Buffer, PosOk;
      if n != 0 {
        seek, skip := true, n;
      }
    }

    method ClearSkip()
      requires Valid()
      modifies `seek
      ensures Valid() && !seek && View() == old(View()) && Ahead() == View()
    {
      hide Sound, Rest, Place, Buffer, PosOk;
      seek := false;
    }

    /** What is in the output buffer is skipped at once, the rest is left pending. */
    method RequestSkip(offset: nat)
      requires Valid() && !seek
      modifies `next, `have, `pos, `seek, `skip
      ensures Valid() && Tell() == old(pos) + offset && Ahead() == Drop(old(View()), offset)
      ensures Room() == old(Room()) + Min(old(have), offset)
      ensures pos == old(pos) + Min(old(have), offset) && pos - old(pos) <= |old(View())| &&
          View() == old(View())[pos - old(pos)..]
    {
      hide Sound, Rest, Place, Buffer, PosOk, View;
      var n := Min(have, offset);
      ghost var view := View();
      Advance(n);
      assert View() == Drop(view, n);
      SetSkip(offset - n);
      DropTwice(view, n, offset - n);
      hide Drop;
    }

    /**
     gzseek64: afterwards gztell64 is what it returned.  It fails exactly for a target before the start
     that lies behind the position, and then a pending seek is forgotten.
     */
    method SeekTo(offset: int, fromStart: bool) returns (r: int)
      requires Valid()
      modifies `f, `eof, `availIn, `how, `next, `have, `pos, `past, `seek, `skip
      ensures Valid()
      ensures var target := if fromStart then offset else old(Tell()) + offset;
        if target < 0 && target < old(pos) then r == -1 && !seek && pos == old(pos) && have == old(have) &&
            View() == old(View())
        else
          && r == target == Tell() && (Room() == 0 ==> old(Room()) == 0 && target == old(pos))
          && if target < old(pos) || (Plain() && target >= 0) then pos >= 0 && View() == Drop(Data(file), pos)
             else old(pos) <= pos <= old(pos) + |old(View())| && View() == old(View())[pos - old(pos)..]
    {
      hide Sound, Rest, Place, Buffer, PosOk, View, Drop, Plain;
      ghost var view, p := View(), pos;
      BufferFits();
      PlainLook(p);
      var to := if fromStart then offset - pos else offset + Pending();
      ghost var to0 := to;
      ClearSkip();
      if how == Copy && pos + to >= 0 {
        SeekCopied(to);
        return pos;
      }
      if to < 0 {
        to := to + pos;
        if to < 0 {
          return -1;
        }
        Rewind();
        NoDrop(Data(file));
        assert Data(file)[0..] == Data(file);
      } else {
        ghost var n := Min(have, to);
        ForwardDrop(view, n);
        assert how == Look && Plain() && p + n >= 0 ==> Drop(view, (p + n) - p) == Drop(Data(file), p + n);
      }
      RequestSkip(to);
      assert to0 < 0 ==> View() == Drop(Data(file), pos);
      assert to0 >= 0 && Plain() && p + to0 >= 0 ==> View() == Drop(Data(file), pos);
      return Tell();
    }

    /** The file is not compressed. */
    ghost predicate Plain() {
      !Magic(file, 0)
    }

    /** How the file is read tells whether it is plain, unless it was not looked at or is empty. */
    lemma PlainLook(p: int)
      requires Valid() && p == pos
      ensures how == Copy ==> Plain()
      ensures how == Gzip ==> !Plain()
      ensures how == Look && Plain() ==> pos + have == 0 && forall t :: 0 <= t ==>
          Drop(View(), t - p) == Drop(Data(file), t)
    {
      hide Sound, Drop, Stream, Data;
      if how == Look && direct && Plain() {
        PlainView();
        forall t | 0 <= t
          ensures Drop(View(), t - p) == Drop(Data(file), t)
        {
          if Terminal() {
            Beyond(View(), t - p);
            Beyond(Data(file), t);
          }
        }
      }
    }

    /** A plain file that was not copied yet: all of it is ahead, or it is empty. */
    lemma PlainView()
      requires Valid() && how == Look && direct && Plain()
      ensures if Terminal() then Data(file) == [] && |View()| == have else View() == Data(file)
    {
      hide Sound;
      CopiedStream(file);
      RewoundStream(file, true);
    }

    /** gz_read when no seek is pending. */
    method ReadNext(len: nat) returns (chunk: seq<byte>)
      requires Valid() && Clean() && !seek
      modifies `f, `eof, `nextIn, `availIn, `how, `direct, `member, `produced, `next, `have, input, out, `pos, `past,
          `seek
      ensures Valid() && Clean() && !seek && chunk + View() == old(View()) && |chunk| == Min(len, |old(View())|)
    {
      hide Valid, View, Clean, Drop, Data;
      ghost var view := View();
      NoDrop(view);
      chunk := Read(len);
      NoDrop(View());
      assert view == view[..|chunk|] + view[|chunk|..];
    }

    /** Requests of any sizes deliver the data in order: nothing is lost, repeated or changed. */
    method ReadAll(sizes: seq<nat>) returns (data: seq<byte>)
      requires Valid() && Clean() && Tell() == 0 && !seek
      modifies `f, `eof, `nextIn, `availIn, `how, `direct, `member, `produced, `next, `have, input, out, `pos, `past,
          `seek
      ensures Valid() && Clean() && data == Data(file)[..Min(Sum(sizes), |Data(file)|)]
    {
      hide Sound, Rest, Place, Buffer, PosOk, View, Sum, Data, Drop;
      data := [];
      SumOfNothing();
      NoDrop(Data(file));
      for i := 0 to |sizes|
        invariant Valid() && Clean() && !seek && |data| == Min(Sum(sizes[..i]), |Data(file)|)
        invariant data + View() == Data(file)
      {
        SumNext(sizes, i);
        var chunk := ReadNext(sizes[i]);
        Associate(data, chunk, View());
        data := data + chunk;
      }
      assert sizes[..|sizes|] == sizes;
    }

    // ----- the interface

    ghost predicate Open()
      reads `f, `eof, `nextIn, `availIn, `how, `direct, `member, `produced, `next, `have, input, out, `pos, `seek,
          `skip, `failed
    {
      Valid() || Dead()
    }

    ghost function Abs(): Cursor
      requires Open()
      reads `f, `eof, `nextIn, `availIn, `how, `direct, `member, `produced, `next, `have, input, out, `pos, `seek,
          `skip, `failed
    {
      if failed then Cursor([], pos, Pending(), true, 2 * size) else Cursor(View(), pos, Pending(), false, Room())
    }

    /** gzread */
    method GzRead(len: nat) returns (r: Reply)
      requires Open()
      modifies `f, `eof, `nextIn, `availIn, `how, `direct, `member, `produced, `next, `have, input, out, `pos, `past,
          `seek, `failed
      ensures Open() && Performs(file, size, old(Abs()), OpRead(len), r, Abs())
    {
      hide Valid, View, Clean, Drop, Performs, Dead;
      Alive();
      ghost var c := Abs();
      DeadPerforms(file, size, c, OpRead(len));
      if failed {
        return Number(-1);
      }
      if len >= 0x8000_0000 {
        TooLong(len);
        return Number(-1);
      }
      var data := Read(len);
      Alive();
      NoDrop(View());
      ReadPerforms(file, size, c, len, data, Abs());
      return Bytes(data);
    }

    lemma Alive()
      requires Open()
      ensures (!failed <==> Valid()) && (failed <==> Dead()) && (seek ==> skip > 0)
    {
      hide Buffer, Place, PosOk, Sound;
    }

    lemma SoundHere()
      requires Open()
      ensures Sound(file, 0)
    {
      hide Buffer, Place, PosOk;
    }

    /** A request that does not fit in an int is a fatal error. */
    method TooLong(len: nat)
      requires Valid() && len >= 0x8000_0000
      modifies `have, `failed
      ensures Open() && Performs(file, size, old(Abs()), OpRead(len), Number(-1), Abs())
    {
      hide Buffer, Place, PosOk, Sound, View, Drop;
      Fail();
    }

    /** gzgetc */
    method GzGetc() returns (r: Reply)
      requires Open()
      modifies `f, `eof, `nextIn, `availIn, `how, `direct, `member, `produced, `next, `have, input, out, `pos, `past,
          `seek
      ensures Open() && Performs(file, size, old(Abs()), OpGetc, r, Abs())
    {
      hide Valid, View, Clean, Drop, Performs, Dead;
      Alive();
      ghost var c := Abs();
      DeadPerforms(file, size, c, OpGetc);
      if failed {
        return Number(-1);
      }
      var x := Getc();
      Alive();
      NoDrop(View());
      GetcPerforms(file, size, c, x, Abs());
      return Number(x);
    }

    /** gzungetc, which looks for a header even after an error. */
    method GzUngetc(c: int) returns (r: Reply)
      requires Open()
      modifies `f, `eof, `nextIn, `availIn, `how, `direct, `member, `produced, `next, `have, input, out, `pos, `past,
          `seek, `failed
      ensures Open() && Performs(file, size, old(Abs()), OpUngetc(c), r, Abs())
    {
      hide Valid, View, Clean, Drop, Performs, Dead;
      Alive();
      ghost var before := Abs();
      DeadPerforms(file, size, before, OpUngetc(c));
      if failed {
        LookAgain();
        Alive();
        return Number(-1);
      }
      var n := Ungetc(c);
      Alive();
      UngetcPerforms(file, size, before, c, n, Abs());
      return Number(n);
    }

    /** gz_look after an error: it does not read, but interprets what is there. */
    method LookAgain()
      requires Dead()
      modifies `eof, `nextIn, `availIn, `how, `direct, `member, `produced, `next, `have, out
      ensures Dead()
    {
      hide Rest, Sound, InMember, Magic, Buffer, Place;
      if how == Look && have == 0 && availIn >= 2 {
        Classify();
      }
    }

    /** gzseek64 */
    method GzSeek(offset: int, fromStart: bool) returns (r: Reply)
      requires Open()
      modifies `f, `eof, `availIn, `how, `next, `have, `pos, `past, `seek, `skip
      ensures Open() && Performs(file, size, old(Abs()), OpSeek(offset, fromStart), r, Abs())
    {
      hide Valid, View, Clean, Drop, Performs, Dead, Data, Magic;
      Alive();
      SoundHere();
      ghost var c := Abs();
      DeadPerforms(file, size, c, OpSeek(offset, fromStart));
      if failed {
        return Number(-1);
      }
      var n := SeekTo(offset, fromStart);
      Alive();
      SeekPerforms(file, size, c, offset, fromStart, n, Abs());
      return Number(n);
    }

    /** gzrewind */
    method GzRewind() returns (r: Reply)
      requires Open()
      modifies `f, `eof, `availIn, `how, `have, `pos, `past, `seek
      ensures Open() && Performs(file, size, old(Abs()), OpRewind, r, Abs())
    {
      hide Valid, View, Clean, Drop, Dead, Data;
      Alive();
      SoundHere();
      if failed {
        return Number(-1);
      }
      Rewind();
      Alive();
      return Number(0);
    }

    /** Any call of the interface. */
    method Perform(op: Op) returns (r: Reply)
      requires Open()
      modifies `f, `eof, `nextIn, `availIn, `how, `direct, `member, `produced, `next, `have, input, out, `pos, `past,
          `seek, `skip, `failed
      ensures Open() && Performs(file, size, old(Abs()), op, r, Abs())
    {
      match op {
        case OpRead(len) => r := GzRead(len);
        case OpGetc => r := GzGetc();
        case OpUngetc(c) => r := GzUngetc(c);
        case OpSeek(offset, fromStart) => r := GzSeek(offset, fromStart);
        case OpRewind => r := GzRewind();
        case OpTell => r := Number(Tell());
      }
    }

    /** Any calls in any order: the replies are those of a cursor. */
    method Run(ops: seq<Op>) returns (replies: seq<Reply>, ghost trace: seq<Cursor>)
      requires Open()
      modifies `f, `eof, `nextIn, `availIn, `how, `direct, `member, `produced, `next, `have, input, out, `pos, `past,
          `seek, `skip, `failed
      ensures Open() && IsTrace(file, size, ops, replies, trace)
      ensures trace[0] == old(Abs()) && trace[|ops|] == Abs()
    {
      hide Open, Performs, Abs;
      replies, trace := [], [Abs()];
      for i := 0 to |ops|
        invariant Open() && |replies| == i && |trace| == i + 1 && trace[0] == old(Abs()) && trace[i] == Abs()
        invariant forall k :: 0 <= k < i ==> Performs(file, size, trace[k], ops[k], replies[k], trace[k + 1])
      {
        var r := Perform(ops[i]);
        replies, trace := replies + [r], trace + [Abs()];
      }
    }
  }

  function Sum(sizes: seq<nat>): nat {
    if sizes == [] then 0 else Sum(sizes[..|sizes| - 1]) + sizes[|sizes| - 1]
  }

  lemma SumOfNothing()
    ensures Sum([]) == 0
  {
  }

  lemma SumNext(sizes: seq<nat>, i: nat)
    requires i < |sizes|
    ensures Sum(sizes[..i + 1]) == Sum(sizes[..i]) + sizes[i]
  {
    assert sizes[..i + 1][..i] == sizes[..i];
  }

  lemma RewoundStream(file: File, direct: bool)
    requires Sound(file, 0) && (!direct ==> Magic(file, 0))
    ensures Stream(file, 0, direct) == Data(file)
  {
  }

  lemma CopiedStream(file: File)
    requires Sound(file, 0) && !Magic(file, 0)
    ensures Data(file) == file.bytes
  {
  }

  lemma ForwardDrop(s: seq<byte>, n: nat)
    ensures n <= |s| ==> s[n..] == Drop(s, n)
  {
  }

  lemma Beyond(s: seq<byte>, n: nat)
    ensures n >= |s| ==> Drop(s, n) == []
  {
  }

  lemma NoDrop(s: seq<byte>)
    ensures Drop(s, 0) == s
  {
  }

  lemma DropTwice(s: seq<byte>, a: nat, b: nat)
    ensures Drop(Drop(s, a), b) == Drop(s, a + b)
  {
  }

  lemma Cut(a: seq<byte>, b: seq<byte>, whole: seq<byte>)
    requires a + b == whole
    ensures a == whole[..|a|] && b == whole[|a|..]
  {
  }

  lemma StillClean(view: seq<byte>, p: int, after: seq<byte>, q: int, data: seq<byte>)
    requires p <= q <= p + |view| && after == view[q - p..]
    ensures p >= 0 && view == Drop(data, p) ==> after == Drop(data, q)
  {
  }

  lemma Joined(bytes: seq<byte>, f: nat, kept: seq<byte>, data: seq<byte>)
    requires |kept| <= f && (|kept| > 0 ==> f <= |bytes| && kept == bytes[f - |kept|..f])
    requires data == bytes[Min(f, |bytes|)..Min(f + |data|, |bytes|)] && (data != [] ==> f + |data| <= |bytes|)
    ensures |kept| + |data| > 0 ==> f + |data| <= |bytes| && kept + data == bytes[f - |kept|..f + |data|]
  {
  }

  lemma Shorter(held: seq<byte>, bytes: seq<byte>, n: nat, f: nat, a: nat, c: nat)
    requires c <= a <= f <= |bytes| && n + a <= |held| && held[n..n + a] == bytes[f - a..f]
    ensures held[n + c..n + a] == bytes[f - a + c..f]
  {
    assert held[n + c..n + a] == held[n..n + a][c..];
    assert bytes[f - a + c..f] == bytes[f - a..f][c..];
  }

  lemma Loaded(bytes: seq<byte>, f: nat, data: seq<byte>)
    requires data == bytes[Min(f, |bytes|)..Min(f + |data|, |bytes|)] && (data != [] ==> f + |data| <= |bytes|)
    ensures data + Drop(bytes, f + |data|) == Drop(bytes, f)
    ensures f + |data| >= |bytes| ==> Drop(bytes, f + |data|) == []
  {
  }

  lemma MemberInFile(file: File, at: nat)
    requires Magic(file, at) && Sound(file, at)
    ensures at + 2 <= file.end(at) <= |file.bytes| && Sound(file, file.end(at))
  {
  }

  lemma StreamAtEnd(file: File, at: nat, direct: bool)
    ensures at >= |file.bytes| ==> Sound(file, at) && Stream(file, at, direct) == []
  {
  }
}
