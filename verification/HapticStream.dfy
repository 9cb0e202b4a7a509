/**
 The control connection of softAP.c: packets of six digits cut from a byte stream, whatever pieces
 the stream arrives in, and the PWM duty they ask for.
 */
module HapticStream {
  import opened Basics

  type Speed = x: int | 0 <= x <= 999

  datatype Packet = Speeds(left: Speed, right: Speed) | Invalid(six: seq<byte>)

  predicate Digit(c: byte) {
    48 <= c <= 57
  }

  function Number(c: byte, d: byte, e: byte): int {
    (c - 48) * 100 + (d - 48) * 10 + (e - 48)
  }

  /** The three digits of a speed. */
  function Spell(v: nat): seq<byte>
    requires v <= 999
  {
    [48 + v / 100, 48 + v / 10 % 10, 48 + v % 10]
  }

  lemma SpellNumber(c: byte, d: byte, e: byte)
    requires Digit(c) && Digit(d) && Digit(e)
    ensures 0 <= Number(c, d, e) <= 999 && Spell(Number(c, d, e)) == [c, d, e]
  {
    var x, y, z := c - 48, d - 48, e - 48;
    Decimals(x, y, z);
    SpellDigits(x * 100 + y * 10 + z, x, y, z);
    hide Spell;
  }

  lemma SpellDigits(v: nat, x: nat, y: nat, z: nat)
    requires v <= 999 && v / 100 == x && v / 10 % 10 == y && v % 10 == z
    ensures Spell(v) == [48 + x, 48 + y, 48 + z]
  {
  }

  lemma Decimals(x: nat, y: nat, z: nat)
    requires x <= 9 && y <= 9 && z <= 9
    ensures var v := x * 100 + y * 10 + z; v <= 999 && v / 100 == x && v / 10 % 10 == y && v % 10 == z
  {
    var v := x * 100 + y * 10 + z;
    assert v / 10 == x * 10 + y;
  }

  /** parse_six_chars_to_lr; the clamps of the code change nothing for digits. */
  function Parse(six: seq<byte>): (p: Packet)
    requires |six| == 6
    ensures p.Speeds? <==> forall i :: 0 <= i < 6 ==> Digit(six[i])
    ensures p.Speeds? ==> six == Spell(p.left) + Spell(p.right)
    ensures p.Invalid? ==> p.six == six
  {
    if forall i :: 0 <= i < 6 ==> Digit(six[i]) then
      SpellNumber(six[0], six[1], six[2]);
      SpellNumber(six[3], six[4], six[5]);
      Speeds(Number(six[0], six[1], six[2]), Number(six[3], six[4], six[5]))
    else Invalid(six)
  }

  /** The stream cut into groups of six, an incomplete last one left out. */
  function Packets(stream: seq<byte>): seq<Packet> {
    if |stream| < 6 then [] else [Parse(stream[..6])] + Packets(stream[6..])
  }

  /** The bytes after the last complete group. */
  predicate LeftOver(left: seq<byte>, stream: seq<byte>) {
    |left| == |stream| % 6 && left == stream[|stream| - |left|..]
  }

  lemma {:induction false} PacketsConcat(a: seq<byte>, b: seq<byte>)
    requires |a| % 6 == 0
    ensures Packets(a + b) == Packets(a) + Packets(b)
  {
    if a == [] {
      assert a + b == b;
    } else {
      assert (a + b)[..6] == a[..6] && (a + b)[6..] == a[6..] + b;
      PacketsConcat(a[6..], b);
    }
  }

  lemma Remainder(n: nat, h: nat)
    requires h < 6 && h <= n && (n - h) % 6 == 0
    ensures n % 6 == h
  {
  }

  /** Fewer than six bytes more make no packet. */
  lemma PacketsBefore(stream: seq<byte>, done: nat)
    requires done <= |stream| < done + 6 && done % 6 == 0
    ensures Packets(stream) == Packets(stream[..done])
  {
    assert stream == stream[..done] + stream[done..];
    PacketsConcat(stream[..done], stream[done..]);
    NoPacket(stream[done..]);
    hide Packets;
  }

  lemma NoPacket(s: seq<byte>)
    ensures |s| < 6 ==> Packets(s) == []
  {
  }

  lemma OneMore(stream: seq<byte>, done: nat)
    requires done % 6 == 0 && |stream| == done + 6
    ensures Packets(stream) == Packets(stream[..done]) + [Parse(stream[done..])]
  {
    var six := stream[done..];
    assert stream == stream[..done] + six;
    PacketsConcat(stream[..done], six);
    assert six[..6] == six && six[6..] == [];
    assert Packets(six) == [Parse(six)] + Packets([]);
  }

  /** A packet that a sender means for two speeds is read as these. */
  lemma ParseReads(left: nat, right: nat)
    requires left <= 999 && right <= 999
    ensures Parse(Spell(left) + Spell(right)) == Speeds(left, right)
  {
    DigitsOf(left);
    DigitsOf(right);
    hide Number, Digit;
  }

  lemma DigitsOf(v: nat)
    requires v <= 999
    ensures Digit(48 + v / 100) && Digit(48 + v / 10 % 10) && Digit(48 + v % 10)
    ensures Number(48 + v / 100, 48 + v / 10 % 10, 48 + v % 10) == v
  {
  }

  /** What a sender writes for some speeds. */
  function Send(speeds: seq<Packet>): seq<byte>
    requires forall i :: 0 <= i < |speeds| ==> speeds[i].Speeds?
  {
    if speeds == [] then [] else Spell(speeds[0].left) + Spell(speeds[0].right) + Send(speeds[1..])
  }

  /** Speeds that are sent one after the other are decoded as these. */
  lemma {:induction false} SpeedsComeBack(speeds: seq<Packet>)
    requires forall i :: 0 <= i < |speeds| ==> speeds[i].Speeds?
    ensures Packets(Send(speeds)) == speeds
  {
    if speeds != [] {
      var six, rest := Spell(speeds[0].left) + Spell(speeds[0].right), Send(speeds[1..]);
      assert (six + rest)[..6] == six && (six + rest)[6..] == rest;
      ParseReads(speeds[0].left, speeds[0].right);
      SpeedsComeBack(speeds[1..]);
      hide Parse, Spell;
      assert Packets(six + rest) == [Parse(six)] + Packets(rest);
    }
  }

  // ----- duty

  /** The duty of the PWM for an intensity. */
  function Duty(v: Speed): (d: nat)
    ensures d <= 1023
  {
    (v * 1023 + 499) / 999
  }

  function Distance(a: int, b: int): nat {
    if a >= b then a - b else b - a
  }

  /** The duty is the one nearest to the same share of 1023 as the intensity is of 999; there are no ties. */
  lemma DutyNearest(v: Speed, d: int)
    ensures 2 * Distance(999 * Duty(v), 1023 * v) < 999
    ensures d != Duty(v) ==> Distance(999 * Duty(v), 1023 * v) < Distance(999 * d, 1023 * v)
  {
    var n := v * 1023 + 499;
    assert 999 * Duty(v) <= n < 999 * Duty(v) + 999;
  }

  /** Larger intensities give larger duties, and the ends of the scale are reached. */
  lemma DutyMonotone(v: Speed, w: Speed)
    requires v < w
    ensures Duty(v) < Duty(w) && Duty(0) == 0 && Duty(999) == 1023
  {
  }

  /** What the two channels are set to. */
  datatype Duties = Duties(left: nat, right: nat)

  /** After some packets: the duties of the last one that is valid; invalid ones change nothing. */
  function DutiesAfter(packets: seq<Packet>): Duties {
    if packets == [] then Duties(0, 0)
    else match packets[|packets| - 1]
      case Speeds(left, right) => Duties(Duty(left), Duty(right))
      case Invalid(_) => DutiesAfter(packets[..|packets| - 1])
  }

  /** Whatever came before and however much that is invalid comes after. */
  lemma {:induction false} LastSpeedsCount(before: seq<Packet>, left: Speed, right: Speed, after: seq<Packet>)
    requires forall i :: 0 <= i < |after| ==> after[i].Invalid?
    ensures DutiesAfter(before + [Speeds(left, right)] + after) == Duties(Duty(left), Duty(right))
    decreases |after|
  {
    var all := before + [Speeds(left, right)] + after;
    if after != [] {
      assert all[..|all| - 1] == before + [Speeds(left, right)] + after[..|after| - 1];
      LastSpeedsCount(before, left, right, after[..|after| - 1]);
    }
  }

  /** One connection: the window of vibration_feedback and what was decoded. */
  class Connection {
    const window: array<byte>
    var have: nat
    var decoded: seq<Packet>
    // ledc_set_duty of the two channels
    var dutyLeft: nat
    var dutyRight: nat
    ghost var stream: seq<byte>

    /** The packets are those of the stream, and the window holds the bytes after them. */
    ghost predicate Valid()
      reads this, window
    {
      && window.Length == 6 && have == |stream| % 6
      && window[..have] == stream[|stream| - have..]
      && decoded == Packets(stream) && Duties(dutyLeft, dutyRight) == DutiesAfter(decoded)
    }

    constructor ()
      ensures Valid() && stream == [] && fresh(window)
    {
      window := new byte[6](_ => 0);
      have, decoded, stream := 0, [], [];
      dutyLeft, dutyRight := 0, 0;
    }

    /** The loop over what one recv returned. */
    method Receive(chunk: seq<byte>)
      requires Valid()
      modifies this, window
      ensures Valid() && stream == old(stream) + chunk
    {
      hide Valid, Filled;
      var off := 0;
      ghost var was := stream;
      while off < |chunk|
        invariant 0 <= off <= |chunk| && Valid() && stream == was + chunk[..off]
      {
        ghost var before := off;
        off := FillWindow(chunk, off);
        assert chunk[..off] == chunk[..before] + chunk[before..off];
        if have == 6 {
          Decode();
        } else {
          StaysValid();
        }
      }
      assert chunk[..|chunk|] == chunk;
    }

    /** What was decoded, and what waits in the window. */
    method Result() returns (packets: seq<Packet>, left: seq<byte>, duties: Duties)
      requires Valid()
      ensures packets == Packets(stream) && duties == DutiesAfter(packets)
      ensures LeftOver(left, stream)
    {
      packets, left, duties := decoded, window[..have], Duties(dutyLeft, dutyRight);
    }

    /** Between filling the window and decoding it. */
    ghost predicate Filled()
      reads this, window
    {
      && window.Length == 6 && have <= 6 && have <= |stream| && (|stream| - have) % 6 == 0
      && window[..have] == stream[|stream| - have..]
      && decoded == Packets(stream[..|stream| - have]) && Duties(dutyLeft, dutyRight) == DutiesAfter(decoded)
    }

    /** The inner loop: at least one byte goes into the window. */
    method FillWindow(chunk: seq<byte>, off0: nat) returns (off: nat)
      requires Valid() && off0 < |chunk|
      modifies `have, `stream, window
      ensures off0 < off <= |chunk| && Filled() && stream == old(stream) + chunk[off0..off]
      ensures have <= 6 && (have < 6 ==> off == |chunk|)
    {
      hide Packets;
      off := off0;
      ghost var was := stream;
      StartsFilled();
      ghost var done := |stream| - have;
      while have < 6 && off < |chunk|
        invariant off0 <= off <= |chunk| && done + have == |stream| && stream == was + chunk[off0..off]
        invariant window.Length == 6 && have <= 6 && (off == off0 ==> have < 6)
        invariant window[..have] == stream[done..] && stream[..done] == was[..done]
      {
        Place(chunk[off], done);
        off := off + 1;
      }
    }

    /** One byte into the window. */
    method Place(c: byte, ghost done: nat)
      requires window.Length == 6 && have < 6 && done + have == |stream| && window[..have] == stream[done..]
      modifies `have, `stream, window
      ensures have == old(have) + 1 && stream == old(stream) + [c] && window[..have] == stream[done..]
    {
      ghost var front := window[..have];
      window[have] := c;
      assert window[..have + 1] == front + [c];
      stream := stream + [c];
      have := have + 1;
    }

    /** With room left in the window no packet is complete. */
    lemma StaysValid()
      requires Filled() && have < 6
      ensures Valid()
    {
      hide Packets;
      var done := |stream| - have;
      Remainder(|stream|, have);
      PacketsBefore(stream, done);
    }

    lemma StartsFilled()
      requires Valid()
      ensures Filled()
    {
      hide Packets;
      PacketsBefore(stream, |stream| - have);
    }

    /** A full window is decoded and emptied. */
    method Decode()
      requires Filled() && have == 6
      modifies `have, `decoded, `dutyLeft, `dutyRight
      ensures Valid() && have == 0
    {
      hide Packets, Parse, Duty;
      ghost var done := |stream| - 6;
      assert window[..] == window[..have] == stream[done..];
      OneMore(stream, done);
      var packet := Parse(window[..]);
      if packet.Speeds? {
        dutyLeft, dutyRight := Duty(packet.left), Duty(packet.right);
      }
      assert (decoded + [packet])[..|decoded|] == decoded;
      decoded := decoded + [packet];
      have := 0;
      assert window[..0] == stream[|stream|..];
    }
  }

  /** What is decoded and set depends on the stream alone, not on how it is cut into pieces. */
  method ReceiveAll(chunks: seq<seq<byte>>) returns (decoded: seq<Packet>, left: seq<byte>, duties: Duties)
    ensures decoded == Packets(Flatten(chunks)) && duties == DutiesAfter(decoded)
    ensures LeftOver(left, Flatten(chunks))
  {
    hide Packets, LeftOver, Connection.Valid;
    var c := new Connection();
    for i := 0 to |chunks|
      invariant c.Valid() && c.stream == Flatten(chunks[..i]) && fresh(c) && fresh(c.window)
    {
      c.Receive(chunks[i]);
      assert chunks[..i + 1][..i] == chunks[..i];
    }
    assert chunks[..|chunks|] == chunks;
    decoded, left, duties := c.Result();
  }
}
