/**
 Camera driver and application, step by step in any order: the class is a machine with one function for
 its steps, and a picture that fits is queued byte for byte.
 */
module CameraRuns {
  import opened Basics
  import opened CameraFrames

  /** A step that either side may take next; one that is not possible is passed over. */
  datatype Move =
    | Vsync(chunk: seq<byte>, image: nat -> byte, started: bool)
    | DmaBuffer(chunk: seq<byte>)
    | Interrupt
    | AppTake
    | AppJudge(frame: nat)
    | AppGive(frame: nat)

  /** What ll_cam_memcpy makes of a DMA buffer has its size. */
  predicate Possible(s: Settings, m: Move) {
    m.Vsync? || m.DmaBuffer? ==> |m.chunk| <= s.perDma
  }

  // ----- the machine

  /** The fields of a camera, with the times of capture. */
  datatype Snap = Snap(en: seq<bool>, data: seq<seq<byte>>, queue: seq<nat>, phase: Phase, pc: Pc, framePos: nat,
                       cnt: nat, held: set<nat>, stamp: seq<nat>, clock: nat, lastQueued: nat)

  ghost function Shot(c: Camera): Snap
    reads c
  {
    Snap(c.en, c.data, c.queue, c.phase, c.pc, c.framePos, c.cnt, c.held, c.stamp, c.clock, c.lastQueued)
  }

  ghost predicate Shaped(s: Settings, a: Snap) {
    |a.en| == |a.data| == |a.stamp| == s.n && a.framePos < s.n
  }

  /** The frame at framePos is to be filled, unless the DMA could not be started. */
  ghost function Begin(a: Snap, fromIdle: bool, started: bool): Snap
    requires a.framePos < |a.data|
  {
    if !started then a.(phase := Idle, pc := Waiting, cnt := 0)
    else a.(data := a.data[a.framePos := []], phase := if fromIdle then ReadBuf else a.phase, pc := Waiting, cnt := 0)
  }

  ghost function EndFrame(s: Settings, a: Snap, chunk: seq<byte>, image: nat -> byte): Snap
    requires Shaped(s, a)
  {
    var picture := a.data[a.framePos];
    if IsSent(s, picture, a.cnt) then
      a.(pc := Sending, en := a.en[a.framePos := false], clock := a.clock + 1,
         stamp := a.stamp[a.framePos := a.clock + 1],
         data := a.data[a.framePos := Ended(s, picture, a.cnt, chunk, image)])
    else a.(pc := Next)
  }

  /** The next step of cam_task, a VSYNC event being there when it waits for one. */
  ghost function Drive(s: Settings, a: Snap, chunk: seq<byte>, image: nat -> byte, started: bool): (b: Snap)
    requires Shaped(s, a)
    ensures Shaped(s, b)
  {
    match a.pc
    case Waiting => if a.phase == Idle then a.(pc := Checking(true)) else EndFrame(s, a, chunk, image)
    case Sending =>
      if |a.queue| < QueueLength(s) then a.(queue := a.queue + [a.framePos], pc := Next, lastQueued := a.clock)
      else a.(pc := Popping)
    case Popping =>
      if a.queue == [] then a.(en := a.en[a.framePos := true], pc := Next)
      else a.(queue := a.queue[1..], pc := Pushing(a.queue[0]))
    case Pushing(x) => a.(queue := a.queue + [a.framePos], pc := Giving(x), lastQueued := a.clock)
    case Giving(x) => a.(en := if x < s.n then a.en[x := true] else a.en, pc := Next)
    case Next => a.(pc := Checking(false))
    case Checking(fromIdle) =>
      if a.en[a.framePos] then Begin(a, fromIdle, started) else a.(pc := Scanning(0, fromIdle))
    case Scanning(x, fromIdle) =>
      if x >= s.n then a.(phase := Idle, pc := Waiting, cnt := 0)
      else if a.en[x] then Begin(a.(framePos := x), fromIdle, started)
      else a.(pc := Scanning(x + 1, fromIdle))
  }

  /** A DMA buffer, which is only looked at while a frame is filled. */
  ghost function Buffer(s: Settings, a: Snap, chunk: seq<byte>): (b: Snap)
    requires Shaped(s, a)
    ensures Shaped(s, b)
  {
    var picture := a.data[a.framePos];
    if !a.pc.Waiting? || a.phase == Idle || (!s.psram && s.fbSize < |picture| + s.perDma) then a
    else
      var more := if s.psram then picture else picture + chunk;
      a.(data := a.data[a.framePos := more], cnt := a.cnt + 1,
         phase := if s.jpeg && a.cnt == 0 && !StartsImage(more) then Idle else a.phase)
  }

  ghost function Judged(s: Settings, a: Snap, x: nat): (b: Snap)
    requires Shaped(s, a)
    ensures Shaped(s, b)
  {
    if x !in a.held || x >= s.n || !s.jpeg then a
    else if LastMarker(a.data[x]) > 0 then a.(data := a.data[x := Cut(a.data[x])])
    else a.(en := a.en[x := true], held := a.held - {x})
  }

  /** One step of either side. */
  ghost function After(s: Settings, a: Snap, m: Move): (b: Snap)
    requires Shaped(s, a)
    ensures Shaped(s, b)
  {
    match m
    case Vsync(chunk, image, started) => Drive(s, a, chunk, image, started)
    case DmaBuffer(chunk) => Buffer(s, a, chunk)
    case Interrupt => a.(phase := Idle)
    case AppTake => if a.queue == [] then a else a.(queue := a.queue[1..], held := a.held + {a.queue[0]})
    case AppJudge(x) => Judged(s, a, x)
    case AppGive(x) => if x in a.held && x < s.n then a.(en := a.en[x := true], held := a.held - {x}) else a
  }

  /** All steps in turn. */
  ghost function Runs(s: Settings, a: Snap, moves: seq<Move>): (b: Snap)
    requires Shaped(s, a)
    ensures Shaped(s, b)
  {
    if moves == [] then a else After(s, Runs(s, a, moves[..|moves| - 1]), moves[|moves| - 1])
  }

  // ----- the class is that machine

  lemma ShotShaped(c: Camera)
    requires c.Valid()
    ensures Shaped(c.settings, Shot(c))
  {
  }

  /** The next step of cam_task, wherever it is. */
  method DriverStep(c: Camera, chunk: seq<byte>, image: nat -> byte, started: bool)
    requires c.Valid() && Shaped(c.settings, Shot(c)) && |chunk| <= c.settings.perDma
    modifies c
    ensures c.Valid() && c.held == old(c.held) && c.taken == old(c.taken)
    ensures Shot(c) == old(Drive(c.settings, Shot(c), chunk, image, started))
  {
    hide Camera.Valid, QueueLength, IsSent, Ended;
    match c.pc {
      case Waiting =>
        if c.phase == Idle {
          c.BeginSearch();
        } else {
          c.VsyncReading(chunk, image);
        }
      case Sending => c.Send();
      case Popping => c.Pop();
      case Pushing(_) => c.Push();
      case Giving(_) => c.GivePopped();
      case Next => c.BeginSearch();
      case Checking(_) => c.CheckCurrent(started);
      case Scanning(_, _) => c.ScanOne(started);
    }
  }

  /** Everything but a receive. */
  method OtherMove(c: Camera, m: Move)
    requires c.Valid() && Shaped(c.settings, Shot(c)) && Possible(c.settings, m) && !m.AppTake?
    modifies c
    ensures c.Valid() && c.taken == old(c.taken)
    ensures Shot(c) == old(After(c.settings, Shot(c), m))
  {
    hide Camera.Valid, Drive, StartsImage;
    match m {
      case Vsync(chunk, image, started) => DriverStep(c, chunk, image, started);
      case DmaBuffer(chunk) =>
        if c.pc.Waiting? && c.phase == ReadBuf {
          c.BufferReceived(chunk);
        }
      case Interrupt => c.Abandon();
      case AppJudge(x) =>
        if x in c.held {
          var ok := c.Judge(x);
        }
      case AppGive(x) =>
        if x in c.held {
          c.Give(x);
        }
      case AppTake =>
    }
  }

  /** The log that a run adds is that of the frames among its replies. */
  ghost predicate Answers(replies: seq<int>, log: seq<Receipt>) {
    FrameReplies(replies) == FramesOf(log)
  }

  /**
   Any interleaving of the driver, the interrupt and the application is a run of the machine, and keeps
   the invariant.  Every receive has a reply; the frames among the replies are those that the log adds, in
   this order, and all of the log is complete and in the order of capture, no capture twice.
   */
  method Run(c: Camera, moves: seq<Move>) returns (replies: seq<int>)
    requires c.Valid() && forall i :: 0 <= i < |moves| ==> Possible(c.settings, moves[i])
    modifies c
    ensures Shot(c) == old(Runs(c.settings, Shot(c), moves))
    ensures c.Valid() && old(c.taken) <= c.taken && Increasing(c.taken) && AllComplete(c.settings, c.taken)
    ensures |replies| == Takes(moves) && Answers(replies, c.taken[|old(c.taken)|..])
    ensures forall k :: 0 <= k < |replies| ==> -1 <= replies[k] < c.settings.n
  {
    hide Camera.Valid, Increasing, AllComplete, Complete, Possible, Takes, Answers, After, Shot, Runs, Shaped;
    ghost var before, first := c.taken, Shot(c);
    ShotShaped(c);
    replies := [];
    NothingYet(before);
    NoMoves(c.settings, first);
    for i := 0 to |moves|
      invariant c.Valid() && before <= c.taken && Shaped(c.settings, Shot(c))
      invariant Shot(c) == Runs(c.settings, first, moves[..i])
      invariant |replies| == Takes(moves[..i]) && Answers(replies, c.taken[|before|..])
      invariant forall k :: 0 <= k < |replies| ==> -1 <= replies[k] < c.settings.n
    {
      TakesNext(moves, i);
      OneMove(c.settings, first, moves, i);
      if moves[i].AppTake? {
        var r := Receive(c, before, replies);
        replies := replies + [r];
      } else {
        OtherMove(c, moves[i]);
      }
    }
    assert moves[..|moves|] == moves;
    LogOf(c);
  }

  lemma NoMoves(s: Settings, a: Snap)
    requires Shaped(s, a)
    ensures Runs(s, a, []) == a
  {
  }

  lemma OneMove(s: Settings, a: Snap, moves: seq<Move>, i: nat)
    requires Shaped(s, a) && i < |moves|
    ensures Runs(s, a, moves[..i + 1]) == After(s, Runs(s, a, moves[..i]), moves[i])
  {
    assert moves[..i + 1][..i] == moves[..i];
  }

  lemma LogOf(c: Camera)
    requires c.Valid()
    ensures Increasing(c.taken) && AllComplete(c.settings, c.taken)
  {
  }

  /** A receive, and what it adds to the log. */
  method Receive(c: Camera, ghost before: seq<Receipt>, ghost replies: seq<int>) returns (r: int)
    requires c.Valid() && before <= c.taken && Answers(replies, c.taken[|before|..])
    requires Shaped(c.settings, Shot(c))
    modifies c
    ensures c.Valid() && -1 <= r < c.settings.n && before <= c.taken && Answers(replies + [r], c.taken[|before|..])
    ensures r == -1 <==> old(c.queue) == []
    ensures Shot(c) == old(After(c.settings, Shot(c), AppTake))
  {
    hide Camera.Valid, Complete, Answers;
    ghost var log := c.taken;
    r := c.Take();
    if r == -1 {
      RefusalNext(replies, log[|before|..]);
    } else {
      FrameNext(replies, log[|before|..], c.taken[|log|]);
      assert c.taken[|before|..] == log[|before|..] + [c.taken[|log|]];
    }
  }

  /** How many receives there are among the moves. */
  function Takes(moves: seq<Move>): nat {
    if moves == [] then 0 else Takes(moves[..|moves| - 1]) + Bit(moves[|moves| - 1].AppTake?)
  }

  lemma TakesNext(moves: seq<Move>, i: nat)
    requires i < |moves|
    ensures Takes(moves[..i + 1]) == Takes(moves[..i]) + Bit(moves[i].AppTake?)
  {
    assert moves[..i + 1][..i] == moves[..i];
  }

  /** The replies that are frames. */
  function FrameReplies(replies: seq<int>): seq<int> {
    if replies == [] then []
    else FrameReplies(replies[..|replies| - 1]) + if replies[|replies| - 1] == -1 then [] else [replies[|replies| - 1]]
  }

  ghost function FramesOf(log: seq<Receipt>): seq<int> {
    seq(|log|, i requires 0 <= i < |log| => log[i].frame)
  }

  lemma NothingYet(before: seq<Receipt>)
    ensures Takes([]) == 0 && Answers([], before[|before|..])
  {
  }

  lemma RefusalNext(replies: seq<int>, log: seq<Receipt>)
    requires Answers(replies, log)
    ensures Answers(replies + [-1], log)
  {
    assert (replies + [-1])[..|replies|] == replies;
  }

  lemma FrameNext(replies: seq<int>, log: seq<Receipt>, receipt: Receipt)
    requires Answers(replies, log)
    ensures Answers(replies + [receipt.frame], log + [receipt])
  {
    assert (replies + [receipt.frame])[..|replies|] == replies;
    assert FramesOf(log + [receipt]) == FramesOf(log) + [receipt.frame];
  }

  // ----- a picture arrives

  /** DMA buffers, one after the other. */
  function Buffers(chunks: seq<seq<byte>>): (moves: seq<Move>)
    ensures |moves| == |chunks| && forall i :: 0 <= i < |chunks| ==> moves[i] == DmaBuffer(chunks[i])
  {
    seq(|chunks|, i requires 0 <= i < |chunks| => DmaBuffer(chunks[i]))
  }

  /** A free frame is about to be filled. */
  ghost predicate Empty(s: Settings, a: Snap) {
    && Shaped(s, a) && a.pc == Waiting && a.phase == ReadBuf && a.cnt == 0 && a.data[a.framePos] == []
  }

  /** With one more buffer for an image, the frame has room for all. */
  predicate Fits(s: Settings, chunks: seq<seq<byte>>) {
    && (|chunks| + Bit(s.jpeg)) * s.perDma <= s.fbSize
    && forall i :: 0 <= i < |chunks| ==> |chunks[i]| <= s.perDma
  }

  ghost function Filled(a: Snap, picture: seq<byte>, cnt: nat): Snap
    requires a.framePos < |a.data|
  {
    a.(data := a.data[a.framePos := picture], cnt := cnt)
  }

  lemma {:induction false} FlattenSize(s: Settings, chunks: seq<seq<byte>>)
    requires forall i :: 0 <= i < |chunks| ==> |chunks[i]| <= s.perDma
    ensures |Flatten(chunks)| <= |chunks| * s.perDma
  {
    if chunks != [] {
      FlattenSize(s, chunks[..|chunks| - 1]);
      Successor(|chunks| - 1, s.perDma);
    }
  }

  lemma LastBuffer(s: Settings, a: Snap, chunks: seq<seq<byte>>)
    requires Shaped(s, a) && chunks != []
    ensures Runs(s, a, Buffers(chunks)) == Buffer(s, Runs(s, a, Buffers(chunks[..|chunks| - 1])), chunks[|chunks| - 1])
  {
    hide Runs, Buffer, Drive, Judged;
    var n := |chunks| - 1;
    OneMove(s, a, Buffers(chunks), n);
    assert Buffers(chunks)[..n + 1] == Buffers(chunks) && Buffers(chunks)[..n] == Buffers(chunks[..n]);
  }

  lemma FitsLess(s: Settings, chunks: seq<seq<byte>>)
    requires Fits(s, chunks) && chunks != []
    ensures Fits(s, chunks[..|chunks| - 1])
    ensures |Flatten(chunks[..|chunks| - 1])| + s.perDma <= s.fbSize
  {
    var n, p := |chunks| - 1, s.perDma;
    FlattenSize(s, chunks[..n]);
    Successor(n, p);
    Successor(n + 1, p);
  }

  /** All buffers of a picture that fits are kept, in order. */
  lemma {:induction false} BuffersKept(s: Settings, a: Snap, chunks: seq<seq<byte>>)
    requires Empty(s, a) && !s.psram && Fits(s, chunks)
    requires s.jpeg && chunks != [] ==> StartsImage(chunks[0])
    ensures Runs(s, a, Buffers(chunks)) == Filled(a, Flatten(chunks), |chunks|)
    decreases |chunks|
  {
    if chunks == [] {
      assert a.data[a.framePos := []] == a.data;
    } else {
      hide Runs, Fits, StartsImage;
      LastBuffer(s, a, chunks);
      FitsLess(s, chunks);
      BuffersKept(s, a, chunks[..|chunks| - 1]);
      assert |chunks| == 1 ==> Flatten(chunks[..0]) + chunks[0] == chunks[0];
    }
  }

  /** If the first one does not begin an image, the frame is abandoned and the others are not looked at. */
  lemma {:induction false} BuffersAbandoned(s: Settings, a: Snap, chunks: seq<seq<byte>>)
    requires Empty(s, a) && !s.psram && s.jpeg && Fits(s, chunks) && chunks != [] && !StartsImage(chunks[0])
    ensures Runs(s, a, Buffers(chunks)) == Filled(a, chunks[0], 1).(phase := Idle)
    decreases |chunks|
  {
    hide Runs, Fits, StartsImage;
    LastBuffer(s, a, chunks);
    FitsLess(s, chunks);
    if |chunks| > 1 {
      BuffersAbandoned(s, a, chunks[..|chunks| - 1]);
    } else {
      NoMoves(s, a);
      assert Buffers(chunks[..0]) == [];
      assert [] + chunks[0] == chunks[0];
    }
  }

  lemma RoomForLast(s: Settings, chunks: seq<seq<byte>>)
    requires Fits(s, chunks)
    ensures s.jpeg ==> |Flatten(chunks)| + s.perDma <= s.fbSize
  {
    FlattenSize(s, chunks);
    if s.jpeg {
      Successor(|chunks|, s.perDma);
    }
  }

  lemma Successor(n: nat, p: nat)
    ensures (n + 1) * p == n * p + p && (n + 0) * p == n * p
  {
  }

  /** What a buffer sequence and a last buffer make of a frame. */
  function Picture(s: Settings, chunks: seq<seq<byte>>, last: seq<byte>): seq<byte> {
    if s.jpeg then Flatten(chunks) + last else Flatten(chunks)
  }

  /** An image has to begin like one in its first buffer, and a raw picture to have the right size. */
  predicate Good(s: Settings, chunks: seq<seq<byte>>) {
    if s.jpeg then chunks != [] && StartsImage(chunks[0]) else |Flatten(chunks)| == s.fbSize
  }

  /** The frame at `f` is the newest in the queue of `b`, and holds the picture. */
  ghost predicate Queued(s: Settings, a: Snap, b: Snap, picture: seq<byte>)
    requires Shaped(s, a)
  {
    && Shaped(s, b) && b.data == a.data[a.framePos := picture] && b.clock == a.clock + 1 == b.lastQueued
    && b.stamp == a.stamp[a.framePos := b.clock] && b.framePos == a.framePos
    && b.queue == (if |a.queue| < QueueLength(s) then a.queue else a.queue[1..]) + [a.framePos]
  }

  /** VSYNC after all buffers of a picture that fits. */
  lemma PictureEnds(s: Settings, a: Snap, chunks: seq<seq<byte>>, last: seq<byte>, image: nat -> byte)
    requires Empty(s, a) && !s.psram && Fits(s, chunks) && (s.jpeg && chunks != [] ==> Good(s, chunks))
    ensures var b := Runs(s, a, Buffers(chunks));
      && b == Filled(a, Flatten(chunks), |chunks|)
      && (IsSent(s, Flatten(chunks), b.cnt) <==> Good(s, chunks))
      && Ended(s, Flatten(chunks), b.cnt, last, image) == Picture(s, chunks, last)
  {
    hide Runs, StartsImage, Fits, Flatten;
    BuffersKept(s, a, chunks);
    RoomForLast(s, chunks);
  }

  lemma {:induction false} RunsConcat(s: Settings, a: Snap, m: seq<Move>, n: seq<Move>)
    requires Shaped(s, a)
    ensures Runs(s, a, m + n) == Runs(s, Runs(s, a, m), n)
    decreases |n|
  {
    hide After;
    if n == [] {
      assert m + n == m;
    } else {
      assert (m + n)[..|m + n| - 1] == m + n[..|n| - 1];
      RunsConcat(s, a, m, n[..|n| - 1]);
    }
  }

  lemma OneStep(s: Settings, a: Snap, m: Move)
    requires Shaped(s, a)
    ensures Runs(s, a, [m]) == After(s, a, m)
  {
    hide After;
    assert [m][..0] == [];
  }

  function Times(k: nat, m: Move): (moves: seq<Move>)
    ensures |moves| == k
  {
    seq(k, _ => m)
  }

  lemma FirstStep(s: Settings, a: Snap, m: Move, k: nat)
    requires Shaped(s, a)
    ensures Runs(s, a, Times(k + 1, m)) == Runs(s, After(s, a, m), Times(k, m))
  {
    hide After, Runs;
    assert Times(k + 1, m) == [m] + Times(k, m);
    RunsConcat(s, a, [m], Times(k, m));
    OneStep(s, a, m);
  }

  /** What VSYNC does with a picture that is sent: one step captures it, one or three put it in the queue. */
  lemma SentIsQueued(s: Settings, b: Snap, v: Move) returns (k: nat)
    requires Shaped(s, b) && v.Vsync? && b.pc == Waiting && b.phase == ReadBuf && |b.queue| <= QueueLength(s)
    requires IsSent(s, b.data[b.framePos], b.cnt)
    ensures Queued(s, b, Runs(s, b, Times(k, v)), Ended(s, b.data[b.framePos], b.cnt, v.chunk, v.image))
  {
    hide Runs, IsSent, Ended;
    var c := After(s, b, v);
    var d := After(s, c, v);
    if |b.queue| < QueueLength(s) {
      k := 2;
      NoMoves(s, d);
    } else {
      k := 4;
      var e := After(s, d, v);
      FirstStep(s, d, v, 1);
      FirstStep(s, e, v, 0);
      NoMoves(s, After(s, e, v));
    }
    FirstStep(s, b, v, k - 1);
    FirstStep(s, c, v, k - 2);
    assert Times(0, v) == [];
  }

  /** Nothing was queued, captured or taken. */
  ghost predicate Nothing(a: Snap, b: Snap) {
    b.queue == a.queue && b.clock == a.clock && b.en == a.en && b.stamp == a.stamp && b.held == a.held
  }

  /**
   A picture that fits, from an empty frame to the queue: if it is good it is the newest there, byte for
   byte, and no other frame has changed; if it is not, nothing is queued.
   */
  lemma PictureArrives(s: Settings, a: Snap, chunks: seq<seq<byte>>, v: Move) returns (k: nat)
    requires Empty(s, a) && !s.psram && Fits(s, chunks) && |a.queue| <= QueueLength(s) && v.Vsync?
    ensures var b := Runs(s, a, Buffers(chunks) + Times(k, v));
      if Good(s, chunks) then Queued(s, a, b, Picture(s, chunks, v.chunk))
      else Nothing(a, b) && (b.pc.Next? || b.pc.Checking?)
  {
    hide Runs, Fits, StartsImage, IsSent, Ended, Picture, QueueLength;
    var b := Runs(s, a, Buffers(chunks));
    if s.jpeg && chunks != [] && !Good(s, chunks) {
      BuffersAbandoned(s, a, chunks);
    } else {
      PictureEnds(s, a, chunks, v.chunk, v.image);
    }
    if Good(s, chunks) {
      k := SentIsQueued(s, b, v);
      var f, p := a.framePos, Picture(s, chunks, v.chunk);
      assert a.data[f := Flatten(chunks)][f := p] == a.data[f := p];
    } else {
      k := 1;
      OneStep(s, b, v);
      assert Times(1, v) == [v];
    }
    RunsConcat(s, a, Buffers(chunks), Times(k, v));
  }

  // ----- the next frame

  lemma ScanFinds(s: Settings, a: Snap, v: Move, w: nat) returns (k: nat)
    requires Shaped(s, a) && v.Vsync? && v.started && a.pc.Scanning? && a.pc.x <= w < s.n && a.en[w]
    ensures Ready(a, Runs(s, a, Times(k, v)), a.pc.fromIdle)
    decreases w - a.pc.x
  {
    hide Runs;
    var b := After(s, a, v);
    if a.en[a.pc.x] {
      k := 1;
      NoMoves(s, b);
    } else {
      var n := ScanFinds(s, b, v, w);
      k := n + 1;
    }
    FirstStep(s, a, v, k - 1);
    assert Times(0, v) == [];
  }

  /** A free frame was found and emptied; the others are as they were. */
  ghost predicate Ready(a: Snap, b: Snap, fromIdle: bool) {
    && b.pc == Waiting && b.cnt == 0 && b.phase == (if fromIdle then ReadBuf else a.phase)
    && b.framePos < |a.data| == |a.en| && a.en[b.framePos] && b.data == a.data[b.framePos := []]
    && Nothing(a, b) && b.lastQueued == a.lastQueued
  }

  /** If there is a free frame, it is found, whether the driver was idle or a frame has just ended. */
  lemma FreeFrameFound(s: Settings, a: Snap, v: Move, w: nat) returns (k: nat)
    requires Shaped(s, a) && v.Vsync? && v.started && w < s.n && a.en[w]
    requires a.pc.Next? || (a.pc.Waiting? && a.phase == Idle)
    ensures Ready(a, Runs(s, a, Times(k, v)), a.pc.Waiting?)
  {
    hide Runs;
    var b := After(s, a, v);
    var c := After(s, b, v);
    var n := 0;
    if a.en[a.framePos] {
      NoMoves(s, c);
      assert Times(0, v) == [];
    } else {
      n := ScanFinds(s, c, v, w);
    }
    k := n + 2;
    FirstStep(s, a, v, n + 1);
    FirstStep(s, b, v, n);
  }
}
