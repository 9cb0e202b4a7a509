/**
 Frame ownership in cam_hal.c as steps that interleave: each method is what one side does between two
 points where the other can run.  The driver side is cam_task with a program counter; the application
 side is cam_take and cam_give; the interrupt side may put the driver back to idle.
 */
module CameraFrames {
  import opened Basics

  datatype Phase = Idle | ReadBuf

  /** Where cam_task is inside the handling of a VSYNC event. */
  datatype Pc =
    | Waiting
    | Sending
    | Popping
    | Pushing(popped: nat)
    | Giving(popped: nat)
    | Next
    | Checking(fromIdle: bool)
    | Scanning(x: nat, fromIdle: bool)

  /**
   What cam_config fixes: the number of frames, whether the newest are kept, the picture format, whether
   the DMA writes to the frames directly, the size of a frame, how much of it one DMA buffer makes, and
   what the DMA writes in all.
   */
  datatype Settings = Settings(n: nat, latest: bool, jpeg: bool, psram: bool, fbSize: nat, perDma: nat, half: nat,
                               recvSize: nat)

  // ----- JPEG markers

  /** The start of an image, which cam_verify_jpeg_soi wants at offset 0. */
  predicate StartsImage(s: seq<byte>) {
    |s| >= 3 && s[0] == 0xFF && s[1] == 0xD8 && s[2] == 0xFF
  }

  predicate EndMarkerAt(s: seq<byte>, k: int) {
    0 <= k && k + 2 <= |s| && s[k] == 0xFF && s[k + 1] == 0xD9
  }

  predicate EndsImage(s: seq<byte>) {
    EndMarkerAt(s, |s| - 2)
  }

  /** cam_verify_jpeg_eoi: the last end marker, except that offset 0 is not looked at; -1 if there is none. */
  method VerifyEoi(s: seq<byte>) returns (offset: int)
    ensures offset == -1 || (1 <= offset && EndMarkerAt(s, offset))
    ensures forall k :: 1 <= k && k > offset ==> !EndMarkerAt(s, k)
    ensures offset == LastMarker(s)
  {
    offset := |s| - 2;
    while offset > 0
      invariant offset <= |s| - 2
      invariant forall k :: 1 <= k && k > offset ==> !EndMarkerAt(s, k)
      decreases offset
    {
      if s[offset] == 0xFF && s[offset + 1] == 0xD9 {
        return;
      }
      offset := offset - 1;
    }
    offset := -1;
  }

  /** Where the last end marker after offset 0 is, or -1. */
  function LastMarker(s: seq<byte>): (k: int)
    ensures k == -1 || (1 <= k && EndMarkerAt(s, k))
    ensures forall i :: 1 <= i && i > k ==> !EndMarkerAt(s, i)
  {
    LastMarkerUpTo(s, |s| - 2)
  }

  function LastMarkerUpTo(s: seq<byte>, n: int): (k: int)
    requires n <= |s| - 2
    ensures k == -1 || (1 <= k <= n && EndMarkerAt(s, k))
    ensures forall i :: 1 <= i <= n && i > k ==> !EndMarkerAt(s, i)
    decreases n
  {
    if n <= 0 then -1 else if EndMarkerAt(s, n) then n else LastMarkerUpTo(s, n - 1)
  }

  /** An image up to its last end marker. */
  function Cut(s: seq<byte>): seq<byte> {
    if LastMarker(s) > 0 then s[..LastMarker(s) + 2] else s
  }

  // ----- queue and ownership

  /** The length of frame_buffer_queue, as cam_config chooses it. */
  function QueueLength(s: Settings): nat {
    if s.latest && s.n > 1 then s.n - 1 else s.n
  }

  ghost predicate Distinct(q: seq<nat>) {
    forall i, j :: 0 <= i < j < |q| ==> q[i] != q[j]
  }

  /** Frames the driver holds between taking one from the free ones and queueing it, or in a swap. */
  function InFlight(pc: Pc, pos: nat): set<nat> {
    match pc
    case Sending => {pos}
    case Popping => {pos}
    case Pushing(p) => {pos, p}
    case Giving(p) => {p}
    case _ => {}
  }

  /** A frame has exactly one owner: it is free, queued, held by the application, or in flight. */
  ghost predicate Owned(en: seq<bool>, q: seq<nat>, held: set<nat>, flight: set<nat>, x: nat)
    requires x < |en|
  {
    Bit(en[x]) + Bit(x in q) + Bit(x in held) + Bit(x in flight) == 1
  }

  /** Every frame has exactly one owner, and the queue has no duplicates. */
  ghost predicate Partition(en: seq<bool>, q: seq<nat>, held: set<nat>, flight: set<nat>) {
    && Distinct(q)
    && (forall i :: 0 <= i < |q| ==> q[i] < |en|)
    && (forall x :: x in held ==> x < |en|)
    && (forall x :: x in flight ==> x < |en|)
    && (forall x :: 0 <= x < |en| ==> Owned(en, q, held, flight, x))
  }

  lemma Enqueue(en: seq<bool>, q: seq<nat>, held: set<nat>, flight: set<nat>, p: nat)
    requires Partition(en, q, held, flight) && p in flight
    ensures Partition(en, q + [p], held, flight - {p})
  {
    forall x | 0 <= x < |en|
      ensures Owned(en, q + [p], held, flight - {p}, x)
    {
      assert Owned(en, q, held, flight, x);
    }
    assert Owned(en, q, held, flight, p);
  }

  /** The head of the queue goes to the driver or to the application. */
  lemma Dequeue(en: seq<bool>, q: seq<nat>, held: set<nat>, flight: set<nat>)
    requires Partition(en, q, held, flight) && q != []
    ensures Partition(en, q[1..], held + {q[0]}, flight) && Partition(en, q[1..], held, flight + {q[0]})
  {
    assert q == [q[0]] + q[1..];
    forall x | 0 <= x < |en|
      ensures Owned(en, q[1..], held + {q[0]}, flight, x) && Owned(en, q[1..], held, flight + {q[0]}, x)
    {
      assert Owned(en, q, held, flight, x);
    }
  }

  lemma Release(en: seq<bool>, q: seq<nat>, held: set<nat>, flight: set<nat>, p: nat)
    requires Partition(en, q, held, flight) && (p in flight || p in held)
    ensures Partition(en[p := true], q, held - {p}, flight - {p})
  {
    var en' := en[p := true];
    forall x | 0 <= x < |en|
      ensures Owned(en', q, held - {p}, flight - {p}, x)
    {
      assert Owned(en, q, held, flight, x);
    }
  }

  lemma Acquire(en: seq<bool>, q: seq<nat>, held: set<nat>, flight: set<nat>, p: nat)
    requires Partition(en, q, held, flight) && p < |en| && en[p]
    ensures Partition(en[p := false], q, held, flight + {p})
  {
    var en' := en[p := false];
    forall x | 0 <= x < |en|
      ensures Owned(en', q, held, flight + {p}, x)
    {
      assert Owned(en, q, held, flight, x);
    }
  }

  /** While a frame is in flight the queue does not hold all. */
  lemma NotAllQueued(en: seq<bool>, q: seq<nat>, held: set<nat>, flight: set<nat>, p: nat)
    requires Partition(en, q, held, flight) && p in flight
    ensures |q| < |en|
  {
    assert Owned(en, q, held, flight, p);
    AtMost(q + [p], |en|);
  }

  /** If nothing is held or in flight and not all frames are queued, one is free. */
  lemma OneIsFree(en: seq<bool>, q: seq<nat>)
    requires Partition(en, q, {}, {}) && |q| < |en|
    ensures exists w :: 0 <= w < |en| && en[w]
  {
    if forall w :: 0 <= w < |en| ==> !en[w] {
      forall x | 0 <= x < |en|
        ensures x in q
      {
        assert Owned(en, q, {}, {}, x);
      }
      Pigeonhole(q, |en|);
    }
  }

  // ----- what is in the frames

  /** What a frame is when VSYNC ends it after `cnt` buffers: a last one is added to an image if there is room. */
  function Ended(s: Settings, picture: seq<byte>, cnt: nat, chunk: seq<byte>, image: nat -> byte): seq<byte> {
    var len := if s.jpeg then (cnt + 1) * s.half else s.recvSize;
    if s.psram then seq(len, i requires 0 <= i < len => image(i))
    else if s.jpeg && |picture| + s.perDma <= s.fbSize then picture + chunk
    else picture
  }

  /** Whether it is sent: an image that was begun, or a raw picture of the right size. */
  predicate IsSent(s: Settings, picture: seq<byte>, cnt: nat) {
    s.psram || if s.jpeg then cnt > 0 else |picture| == s.fbSize
  }

  /** A frame that was sent: complete if it is raw, and beginning like an image if it is JPEG. */
  predicate Complete(s: Settings, data: seq<byte>) {
    !s.psram ==> |data| <= s.fbSize && if s.jpeg then StartsImage(data) else |data| == s.fbSize
  }

  /** No frame is written past its end, and what is not free was complete when it was sent. */
  ghost predicate Contents(s: Settings, en: seq<bool>, data: seq<seq<byte>>, held: set<nat>) {
    && |data| == |en|
    && (!s.psram ==> forall x :: 0 <= x < |data| ==> |data[x]| <= s.fbSize)
    && (forall x :: 0 <= x < |en| && !en[x] && x !in held ==> Complete(s, data[x]))
  }

  // ----- the order of capture

  /** Queued frames are in the order of capture, and newer than all that were taken. */
  ghost predicate InOrder(q: seq<nat>, stamp: seq<nat>, clock: nat, lastTaken: nat) {
    && lastTaken <= clock
    && (forall i :: 0 <= i < |q| ==> q[i] < |stamp| && lastTaken < stamp[q[i]] <= clock)
    && (forall i, j :: 0 <= i < j < |q| ==> q[i] < |stamp| && q[j] < |stamp| && stamp[q[i]] < stamp[q[j]])
  }

  /** The frame at `p` is the newest. */
  ghost predicate Newest(q: seq<nat>, stamp: seq<nat>, clock: nat, lastTaken: nat, p: nat) {
    p < |stamp| && stamp[p] == clock > lastTaken && forall i :: 0 <= i < |q| ==> q[i] < |stamp| && stamp[q[i]] < clock
  }

  lemma CaptureOrder(q: seq<nat>, stamp: seq<nat>, clock: nat, lastTaken: nat, p: nat)
    requires InOrder(q, stamp, clock, lastTaken) && p < |stamp| && p !in q
    ensures InOrder(q, stamp[p := clock + 1], clock + 1, lastTaken) &&
        Newest(q, stamp[p := clock + 1], clock + 1, lastTaken, p)
  {
  }

  /**
   The last frame that was queued is at the end of the queue or was received, unless it was the only one
   and is being swapped for a newer one.
   */
  ghost predicate NewestKept(q: seq<nat>, stamp: seq<nat>, lastTaken: nat, lastQueued: nat, swapping: bool) {
    if q != [] then q[|q| - 1] < |stamp| && stamp[q[|q| - 1]] == lastQueued else swapping || lastTaken == lastQueued
  }

  lemma CaptureKeeps(q: seq<nat>, stamp: seq<nat>, lastTaken: nat, lastQueued: nat, p: nat, now: nat)
    requires NewestKept(q, stamp, lastTaken, lastQueued, false) && p < |stamp| && p !in q
    ensures NewestKept(q, stamp[p := now], lastTaken, lastQueued, false)
  {
  }

  /** The head of the queue is newer than all that were taken, and older than the rest. */
  lemma DequeueOrder(q: seq<nat>, stamp: seq<nat>, clock: nat, lastTaken: nat)
    requires InOrder(q, stamp, clock, lastTaken) && q != []
    ensures q[0] < |stamp| && lastTaken < stamp[q[0]] && InOrder(q[1..], stamp, clock, stamp[q[0]])
    ensures forall p: nat :: Newest(q, stamp, clock, lastTaken, p) ==> Newest(q[1..], stamp, clock, stamp[q[0]], p)
  {
  }

  lemma EnqueueKeeps(q: seq<nat>, stamp: seq<nat>, clock: nat, lastTaken: nat, p: nat, swapping: bool)
    requires Newest(q, stamp, clock, lastTaken, p)
    ensures NewestKept(q + [p], stamp, lastTaken, clock, swapping)
  {
  }

  lemma DequeueKeeps(q: seq<nat>, stamp: seq<nat>, lastTaken: nat, lastQueued: nat, swapping: bool)
    requires NewestKept(q, stamp, lastTaken, lastQueued, swapping) && q != []
    ensures q[0] < |stamp| || |q| > 1
    ensures NewestKept(q[1..], stamp, lastTaken, lastQueued, true)
    ensures q[0] < |stamp| ==> NewestKept(q[1..], stamp, stamp[q[0]], lastQueued, swapping)
  {
  }

  /** A frame that was received: when it was captured, and what was in it. */
  datatype Receipt = Receipt(frame: nat, stamp: nat, picture: seq<byte>)

  /** Frames were received in the order of capture, none of them twice. */
  ghost predicate Increasing(log: seq<Receipt>) {
    forall i, j :: 0 <= i < j < |log| ==> log[i].stamp < log[j].stamp
  }

  /** Every frame that was received was complete. */
  ghost predicate AllComplete(s: Settings, log: seq<Receipt>) {
    forall k :: 0 <= k < |log| ==> log[k].frame < s.n && Complete(s, log[k].picture)
  }

  ghost predicate Logged(s: Settings, log: seq<Receipt>, lastTaken: nat) {
    Increasing(log) && AllComplete(s, log) && forall k :: 0 <= k < |log| ==> log[k].stamp <= lastTaken
  }

  lemma LogNext(s: Settings, log: seq<Receipt>, lastTaken: nat, receipt: Receipt)
    requires Logged(s, log, lastTaken) && lastTaken < receipt.stamp && receipt.frame < s.n &&
        Complete(s, receipt.picture)
    ensures Logged(s, log + [receipt], receipt.stamp)
  {
  }

  lemma EnqueueOrder(q: seq<nat>, stamp: seq<nat>, clock: nat, lastTaken: nat, p: nat)
    requires InOrder(q, stamp, clock, lastTaken) && Newest(q, stamp, clock, lastTaken, p)
    ensures InOrder(q + [p], stamp, clock, lastTaken)
  {
  }

  /** A queue that holds all of 0 .. n - 1 is at least that long. */
  lemma {:induction false} Pigeonhole(q: seq<nat>, n: nat)
    requires forall x :: 0 <= x < n ==> x in q
    ensures |q| >= n
  {
    if n > 0 {
      assert n - 1 in q;
      var i :| 0 <= i < |q| && q[i] == n - 1;
      var rest := q[..i] + q[i + 1..];
      forall x | 0 <= x < n - 1
        ensures x in rest
      {
        assert x in q;
        var j :| 0 <= j < |q| && q[j] == x;
        assert x == if j < i then rest[j] else rest[j - 1];
      }
      Pigeonhole(rest, n - 1);
    }
  }

  class Camera {
    const settings: Settings
    var en: seq<bool>
    var data: seq<seq<byte>>
    var queue: seq<nat>
    var phase: Phase
    var pc: Pc
    var framePos: nat
    var cnt: nat
    var held: set<nat>
    ghost var sure: bool

    // when frames were captured, and those that were received
    ghost var stamp: seq<nat>
    ghost var clock: nat
    ghost var lastTaken: nat
    ghost var taken: seq<Receipt>
    // when the last frame that was queued was captured
    ghost var lastQueued: nat

    /** The frame that was captured is not in the queue yet. */
    predicate HasNew()
      reads `pc
    {
      pc.Sending? || pc.Popping? || pc.Pushing?
    }

    /** While `sure`, a search that is under way will find a free frame. */
    ghost predicate Search()
      reads `pc, `en, `sure
    {
      && (pc.Scanning? ==> pc.x <= |en| && (sure ==> exists w :: pc.x <= w < |en| && en[w]))
      && (pc.Checking? && sure ==> exists w :: 0 <= w < |en| && en[w])
    }

    /** The frame being filled begins like an image once its first buffer was looked at. */
    ghost predicate Begun()
      reads `phase, `pc, `data, `framePos, `cnt
    {
      Filling() && settings.jpeg && !settings.psram && cnt > 0 ==> framePos < |data| && StartsImage(data[framePos])
    }

    /** What every step of either side keeps. */
    ghost predicate Valid()
      reads this
    {
      && |en| == settings.n && |stamp| == settings.n && framePos < settings.n && |queue| <= QueueLength(settings)
      && Partition(en, queue, held, InFlight(pc, framePos))
      && Contents(settings, en, data, held) && Begun()
      && InOrder(queue, stamp, clock, lastTaken)
      && Logged(settings, taken, lastTaken) && NewestKept(queue, stamp, lastTaken, lastQueued, pc.Pushing?)
      && (HasNew() ==> Newest(queue, stamp, clock, lastTaken, framePos))
      && (Filling() ==> en[framePos])
      && (pc.Pushing? ==> |queue| < QueueLength(settings) && pc.popped != framePos)
      && Search()
    }

    /** The driver writes into the frame at framePos. */
    predicate Filling()
      reads `phase, `pc
    {
      phase == ReadBuf && pc.Waiting?
    }

    /** The driver never fills a frame that is queued or held. */
    lemma FillsOnlyFree()
      requires Valid() && Filling()
      ensures framePos < settings.n && en[framePos] && framePos !in queue && framePos !in held
    {
      assert Owned(en, queue, held, InFlight(pc, framePos), framePos);
    }

    /**
     A frame that was queued stays at the end of the queue until it is received, except while it is the
     only one and is being swapped for a newer one.
     */
    lemma NewestStays()
      requires Valid() && !pc.Pushing?
      ensures lastQueued == lastTaken ||
          (queue != [] && queue[|queue| - 1] < |stamp| && stamp[queue[|queue| - 1]] == lastQueued)
    {
    }

    /** en is 1 exactly when nobody has the frame. */
    lemma EnabledIffFree(x: nat)
      requires Valid() && x < settings.n
      ensures en[x] <==> x !in queue && x !in held && x !in InFlight(pc, framePos)
    {
      assert Owned(en, queue, held, InFlight(pc, framePos), x);
    }

    constructor (settings: Settings)
      requires settings.n > 0
      ensures Valid() && this.settings == settings && held == {} && pc == Waiting && phase == Idle && taken == []
    {
      this.settings := settings;
      en, data := seq(settings.n, _ => true), seq(settings.n, _ => []);
      queue, phase, pc, framePos, cnt, held, sure := [], Idle, Waiting, 0, 0, {}, false;
      stamp, clock, lastTaken, lastQueued, taken := seq(settings.n, _ => 0), 0, 0, 0, [];
    }

    // ----- the driver

    /**
     The start of cam_start_frame, after a VSYNC while idle or at the end of a frame.  Keeping the
     newest frames, some frame is free unless the application holds one.
     */
    method BeginSearch()
      requires Valid() && (pc.Next? || (pc.Waiting? && phase == Idle))
      modifies `pc, `sure
      ensures Valid() && pc == Checking(old(pc.Waiting?))
      ensures sure <==> settings.latest && settings.n > 1 && held == {}
    {
      hide Partition, InOrder, Newest, NewestKept, Contents, Logged;
      sure := settings.latest && settings.n > 1 && held == {};
      if sure {
        OneIsFree(en, queue);
      }
      pc := Checking(pc.Waiting?);
    }

    /** cam_get_next_frame looks at the current frame first. */
    method CheckCurrent(started: bool)
      requires Valid() && pc.Checking?
      modifies `pc, `phase, `cnt, `data
      ensures Valid()
      ensures if old(en[framePos]) then Began(old(phase), old(data), old(pc.fromIdle), started)
        else pc == Scanning(0, old(pc.fromIdle)) && phase == old(phase) && data == old(data) && cnt == old(cnt)
    {
      hide Partition, InOrder, Newest, NewestKept, Contents, Logged;
      var fromIdle := pc.fromIdle;
      if en[framePos] {
        Start(fromIdle, started);
      } else {
        pc := Scanning(0, fromIdle);
      }
    }

    /** One turn of the search; the application may run between two turns.  A sure search does not fail. */
    method ScanOne(started: bool)
      requires Valid() && pc.Scanning?
      modifies `pc, `phase, `framePos, `cnt, `data
      ensures Valid() && old(pc.x) <= settings.n
      ensures old(pc.x) == settings.n ==>
          !sure && pc == Waiting && phase == Idle && cnt == 0 && data == old(data) && framePos == old(framePos)
      ensures old(pc.x) < settings.n && en[old(pc.x)] ==>
          framePos == old(pc.x) && Began(old(phase), old(data), old(pc.fromIdle), started)
      ensures old(pc.x) < settings.n && !en[old(pc.x)] ==>
          pc == Scanning(old(pc.x) + 1, old(pc.fromIdle)) && framePos == old(framePos) && phase == old(phase) &&
          data == old(data) && cnt == old(cnt)
    {
      hide Partition, InOrder, Newest, NewestKept, Contents, Logged;
      var x, fromIdle := pc.x, pc.fromIdle;
      if x == settings.n {
        phase, pc, cnt := Idle, Waiting, 0;
      } else if en[x] {
        framePos := x;
        Start(fromIdle, started);
      } else {
        pc := Scanning(x + 1, fromIdle);
      }
    }

    /** A free frame was found at framePos; it is filled from the start if ll_cam_start did not fail. */
    ghost predicate Began(phase0: Phase, data0: seq<seq<byte>>, fromIdle: bool, started: bool)
      reads `phase, `data, `framePos, `pc, `cnt
    {
      && pc == Waiting && cnt == 0 && framePos < |data0|
      && phase == (if !started then Idle else if fromIdle then ReadBuf else phase0)
      && data == (if started then data0[framePos := []] else data0)
    }

    /** The end of cam_start_frame with a free frame: ll_cam_start may fail. */
    method Start(fromIdle: bool, started: bool)
      requires Valid() && (pc.Checking? || pc.Scanning?) && en[framePos]
      modifies `pc, `phase, `cnt, `data
      ensures Valid() && Began(old(phase), old(data), fromIdle, started)
    {
      hide Partition, InOrder, Newest, NewestKept, Logged;
      if !started {
        phase := Idle;
      } else {
        data := data[framePos := []];
        if fromIdle {
          phase := ReadBuf;
        }
      }
      pc, cnt := Waiting, 0;
    }

    /**
     A DMA buffer while reading, of which ll_cam_memcpy makes `chunk`: it is dropped if the frame has no
     room, and an image that does not begin like one is abandoned.  With the DMA writing to the frames
     the length is still zero here, so that every JPEG image is abandoned at its first buffer.
     */
    method BufferReceived(chunk: seq<byte>)
      requires Valid() && Filling() && |chunk| <= settings.perDma
      modifies `data, `cnt, `phase
      ensures Valid()
      ensures data == if !settings.psram && |old(data)[framePos]| + settings.perDma <= settings.fbSize
                      then old(data)[framePos := old(data)[framePos] + chunk] else old(data)
      ensures cnt == old(cnt) + Bit(settings.psram || |old(data)[framePos]| + settings.perDma <= settings.fbSize)
      ensures phase == if cnt == 1 && old(cnt) == 0 && settings.jpeg && !StartsImage(data[framePos]) then Idle
          else ReadBuf
      ensures settings.psram && settings.jpeg && old(cnt) == 0 && old(data)[framePos] == [] ==> phase == Idle
    {
      hide Partition, InOrder, Newest, NewestKept, Logged;
      if !settings.psram {
        if settings.fbSize < |data[framePos]| + settings.perDma {
          return;
        }
        data := data[framePos := data[framePos] + chunk];
      }
      if settings.jpeg && cnt == 0 && !StartsImage(data[framePos]) {
        phase := Idle;
      }
      cnt := cnt + 1;
    }

    lemma EndedComplete(chunk: seq<byte>, image: nat -> byte)
      requires Valid() && Filling() && framePos < |data| && IsSent(settings, data[framePos], cnt)
      requires |chunk| <= settings.perDma
      ensures Complete(settings, Ended(settings, data[framePos], cnt, chunk, image))
    {
      hide Partition, InOrder, Newest, NewestKept, Logged;
      StaysImage(data[framePos], chunk);
    }

    /** VSYNC while reading: a frame that is sent leaves the free ones and is the newest. */
    method VsyncReading(chunk: seq<byte>, image: nat -> byte)
      requires Valid() && pc.Waiting? && phase == ReadBuf && |chunk| <= settings.perDma
      modifies `en, `data, `pc, `stamp, `clock
      ensures Valid() && framePos < |old(data)|
      ensures if IsSent(settings, old(data)[framePos], cnt) then
          && pc == Sending && clock == old(clock) + 1 && stamp == old(stamp)[framePos := clock]
          && en == old(en)[framePos := false]
          && data == old(data)[framePos := Ended(settings, old(data)[framePos], cnt, chunk, image)]
        else pc == Next && data == old(data) && clock == old(clock) && en == old(en) && stamp == old(stamp)
    {
      hide Partition, InOrder, Newest, NewestKept, Logged, Complete, Ended, IsSent, Contents;
      FillsOnlyFree();
      InFrames();
      if IsSent(settings, data[framePos], cnt) {
        EndedComplete(chunk, image);
        Capture(Ended(settings, data[framePos], cnt, chunk, image));
      } else {
        pc := Next;
      }
    }

    lemma InFrames()
      requires Valid()
      ensures |data| == settings.n
    {
    }

    /** A frame that was filled with `ended` is no longer free. */
    method Capture(ended: seq<byte>)
      requires Valid() && Filling() && Complete(settings, ended)
      modifies `en, `data, `pc, `stamp, `clock
      ensures Valid() && pc == Sending && clock == old(clock) + 1 && stamp == old(stamp)[framePos := clock]
      ensures data == old(data)[framePos := ended] && en == old(en)[framePos := false]
    {
      hide Partition, InOrder, Newest, NewestKept, Logged;
      FillsOnlyFree();
      Acquire(en, queue, held, {}, framePos);
      CaptureOrder(queue, stamp, clock, lastTaken, framePos);
      CaptureKeeps(queue, stamp, lastTaken, lastQueued, framePos, clock + 1);
      clock := clock + 1;
      stamp := stamp[framePos := clock];
      data := data[framePos := ended];
      en, pc := en[framePos := false], Sending;
      assert {} + {framePos} == InFlight(pc, framePos);
    }

    /** xQueueSend of the new frame; it fails only when the newest frames are kept. */
    method Send()
      requires Valid() && pc.Sending?
      modifies `queue, `pc, `lastQueued
      ensures Valid()
      ensures if |old(queue)| < QueueLength(settings) then
          pc == Next && queue == old(queue) + [framePos] && lastQueued == clock
        else
          && pc == Popping && queue == old(queue) != [] && lastQueued == old(lastQueued)
          && settings.latest && settings.n > 1
    {
      hide Partition, InOrder, Newest, NewestKept, Contents, Logged;
      var flight := InFlight(pc, framePos);
      NotAllQueued(en, queue, held, flight, framePos);
      if |queue| < QueueLength(settings) {
        Enqueue(en, queue, held, flight, framePos);
        EnqueueOrder(queue, stamp, clock, lastTaken, framePos);
        EnqueueKeeps(queue, stamp, clock, lastTaken, framePos, false);
        queue, pc, lastQueued := queue + [framePos], Next, clock;
        assert flight - {framePos} == InFlight(pc, framePos);
      } else {
        pc := Popping;
      }
    }

    /** The queue was full: its oldest frame is taken back, if the application was not faster. */
    method Pop()
      requires Valid() && pc.Popping?
      modifies `queue, `pc, `en
      ensures Valid()
      ensures if old(queue) == [] then pc == Next && en == old(en)[framePos := true] && queue == []
          else pc == Pushing(old(queue)[0]) && queue == old(queue)[1..] && en == old(en)
    {
      hide Partition, Logged;
      var flight := InFlight(pc, framePos);
      if queue == [] {
        HeldApart(framePos);
        Release(en, queue, held, flight, framePos);
        en, pc := en[framePos := true], Next;
        assert flight - {framePos} == InFlight(pc, framePos);
      } else {
        NotQueued(framePos);
        Dequeue(en, queue, held, flight);
        DequeueKeeps(queue, stamp, lastTaken, lastQueued, false);
        queue, pc := queue[1..], Pushing(queue[0]);
        assert flight + {pc.popped} == InFlight(pc, framePos);
      }
    }

    lemma HeldApart(p: nat)
      requires Valid() && p in InFlight(pc, framePos)
      ensures held - {p} == held
    {
      assert Owned(en, queue, held, InFlight(pc, framePos), p);
    }

    lemma NotQueued(p: nat)
      requires Valid() && p in InFlight(pc, framePos)
      ensures p !in queue
    {
      assert Owned(en, queue, held, InFlight(pc, framePos), p);
    }

    /** The second xQueueSend: there is room now, so the branch that reports FBQ-SND is never taken. */
    method Push()
      requires Valid() && pc.Pushing?
      modifies `queue, `pc, `lastQueued
      ensures Valid() && queue == old(queue) + [framePos] && lastQueued == clock && pc == Giving(old(pc.popped))
    {
      hide Partition, InOrder, Newest, NewestKept, Contents, Logged;
      var flight := InFlight(pc, framePos);
      Enqueue(en, queue, held, flight, framePos);
      EnqueueOrder(queue, stamp, clock, lastTaken, framePos);
      EnqueueKeeps(queue, stamp, clock, lastTaken, framePos, false);
      queue, pc, lastQueued := queue + [framePos], Giving(pc.popped), clock;
      assert flight - {framePos} == InFlight(pc, framePos);
    }

    /** cam_give of the popped frame. */
    method GivePopped()
      requires Valid() && pc.Giving?
      modifies `en, `pc
      ensures Valid() && pc == Next && old(pc.popped) < settings.n && en == old(en)[old(pc.popped) := true]
    {
      var flight, p := InFlight(pc, framePos), pc.popped;
      HeldApart(p);
      Release(en, queue, held, flight, p);
      hide Partition, InOrder, Newest, NewestKept, Logged;
      en, pc := en[p := true], Next;
      assert flight - {p} == InFlight(pc, framePos);
    }

    /** An overflow of the event queue in the interrupt handler. */
    method Abandon()
      requires Valid()
      modifies `phase
      ensures Valid() && phase == Idle
    {
      hide Partition, InOrder, Newest, NewestKept, Contents, Logged;
      phase := Idle;
    }

    // ----- the application

    /** The receive in cam_take: frames come complete and in the order in which they were captured. */
    method Take() returns (r: int)
      requires Valid()
      modifies `queue, `held, `lastTaken, `taken
      ensures Valid()
      ensures old(queue) == [] ==>
          r == -1 && queue == [] && held == old(held) && taken == old(taken) && lastTaken == old(lastTaken)
      ensures old(queue) != [] ==>
        && r == old(queue)[0] < settings.n && queue == old(queue)[1..] && held == old(held) + {r} && r !in old(held)
        && !en[r] && Complete(settings, data[r])
        && lastTaken == stamp[r] > old(lastTaken) && taken == old(taken) + [Receipt(r, stamp[r], data[r])]
    {
      hide Partition, Complete, Logged, InOrder, Newest, NewestKept;
      if queue == [] {
        return -1;
      }
      var x := queue[0];
      DequeueOrder(queue, stamp, clock, lastTaken);
      EnabledIffFreeOf(x);
      Dequeue(en, queue, held, InFlight(pc, framePos));
      DequeueKeeps(queue, stamp, lastTaken, lastQueued, pc.Pushing?);
      queue := queue[1..];
      held := held + {x};
      LogNext(settings, taken, lastTaken, Receipt(x, stamp[x], data[x]));
      lastTaken := stamp[x];
      taken := taken + [Receipt(x, stamp[x], data[x])];
      return x;
    }

    lemma EnabledIffFreeOf(x: nat)
      requires Valid() && x in queue
      ensures x < settings.n && !en[x] && x !in held
    {
      assert Owned(en, queue, held, InFlight(pc, framePos), x);
    }

    /** The rest of cam_take: an image is cut after its last end marker, or given back if it has none. */
    method Judge(x: nat) returns (ok: bool)
      requires Valid() && x in held
      modifies `en, `held, `data
      ensures Valid() && x < settings.n && taken == old(taken)
      ensures ok ==>
          held == old(held) && en == old(en) && data[x] <= old(data)[x] && (settings.jpeg ==> EndsImage(data[x]))
      ensures ok ==> data == if settings.jpeg then old(data)[x := Cut(old(data)[x])] else old(data)
      ensures !ok ==> settings.jpeg && held == old(held) - {x} && en == old(en)[x := true] && data == old(data)
      ensures ok <==> !settings.jpeg || LastMarker(old(data)[x]) > 0
    {
      HeldInRange(x);
      if !settings.jpeg {
        return true;
      }
      var offset := VerifyEoi(data[x]);
      assert offset == LastMarker(data[x]);
      if offset >= 0 {
        CutKeeps(x, data[x][..offset + 2]);
        hide Partition, InOrder, Newest, NewestKept, Logged, Contents;
        data := data[x := data[x][..offset + 2]];
        return true;
      }
      Give(x);
      return false;
    }

    lemma HeldInRange(x: nat)
      requires Valid() && x in held
      ensures x < settings.n && !en[x] && x !in InFlight(pc, framePos)
    {
      assert Owned(en, queue, held, InFlight(pc, framePos), x);
    }

    /** A shorter text in a held frame. */
    lemma CutKeeps(x: nat, shorter: seq<byte>)
      requires Valid() && x in held && x < settings.n && |data| == settings.n && |shorter| <= |data[x]|
      ensures Contents(settings, en, data[x := shorter], held)
      ensures Filling() ==> framePos != x
    {
      HeldInRange(x);
    }

    /**
     cam_take, when `tries` receives fit the time: a frame the application then holds, cut to its image,
     or -1 and nothing held that was not held before.
     */
    method CamTake(tries: nat) returns (r: int)
      requires Valid()
      modifies `queue, `held, `lastTaken, `taken, `en, `data
      ensures Valid() && old(taken) <= taken
      ensures r == -1 ==> held == old(held)
      ensures r != -1 ==>
        && 0 <= r < settings.n && held == old(held) + {r as nat} && r !in old(held)
        && (settings.jpeg ==> EndsImage(data[r]))
        && old(taken) < taken && taken[|taken| - 1].frame == r && taken[|taken| - 1].stamp == stamp[r]
        && data[r] <= taken[|taken| - 1].picture
    {
      hide Valid, Complete;
      for i := 0 to tries
        invariant Valid() && held == old(held) && old(taken) <= taken
      {
        r := Take();
        if r == -1 {
          return;
        }
        var ok := Judge(r);
        if ok {
          return;
        }
      }
      r := -1;
    }

    /** cam_give of a frame that the application holds. */
    method Give(x: nat)
      requires Valid() && x in held
      modifies `en, `held
      ensures Valid() && held == old(held) - {x} && x < settings.n && en == old(en)[x := true]
    {
      var flight := InFlight(pc, framePos);
      HeldInRange(x);
      Release(en, queue, held, flight, x);
      hide Partition, InOrder, Newest, NewestKept, Logged, Complete;
      assert flight - {x} == flight;
      en, held := en[x := true], held - {x};
      if sure && (pc.Scanning? || pc.Checking?) {
        ghost var w :| (if pc.Scanning? then pc.x else 0) <= w < settings.n && old(en[w]);
        assert en[w];
      }
    }
  }

  lemma StaysImage(s: seq<byte>, more: seq<byte>)
    ensures StartsImage(s) ==> StartsImage(s + more)
  {
  }

  /** There are no more than `n` distinct numbers below `n`. */
  lemma {:induction false} AtMost(q: seq<nat>, n: nat)
    requires Distinct(q) && forall i :: 0 <= i < |q| ==> q[i] < n
    ensures |q| <= n
  {
    var first := if |q| > 0 then q[0] else 0;
    if n > 0 && n - 1 in q {
      var k :| 0 <= k < |q| && q[k] == n - 1;
      var rest := q[..k] + q[k + 1..];
      forall i | 0 <= i < |rest|
        ensures rest[i] < n - 1
      {
        assert rest[i] == if i < k then q[i] else q[i + 1];
      }
      AtMost(rest, n - 1);
    } else if n > 0 {
      AtMost(q, n - 1);
    }
  }
}
